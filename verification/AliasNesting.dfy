/** Nested types conflict: an object and an object it contains are never told apart by their alias sets. */
module AliasNesting {
  import opened Options
  import opened AliasSets
  import opened AliasTypes

  /** The type whose alias set `t` uses. */
  function Settled(pg: Program, t: TypeId): (u: TypeId)
    requires pg.Valid() && pg.Has(t)
    ensures pg.Has(u) && pg.rank[u] == pg.rank[t]
  {
    if pg.types[t].structural then t
    else
      assert pg.CanonicalOk(t);
      pg.types[t].canonical
  }

  /** `t` contains a `g` directly: an element whose address can be taken, or an addressable field.  Types for which the
      language has a rule of its own are not looked into. */
  predicate Contains(pg: Program, t: TypeId, g: TypeId)
    requires pg.Valid() && pg.Has(t) && pg.Has(g)
  {
    && pg.types[Settled(pg, t)].hook == Default
    && match pg.types[t].shape
       case ArrayOf(e, nonaliased) => g == e && (!nonaliased || pg.types[t].structural)
       case VectorOf(e) => g == e
       case ComplexOf(e) => g == e
       case RecordOf(fs) => exists i :: 0 <= i < |fs| && fs[i].addressable && fs[i].ty == g
       case _ => false
  }

  /** If `t` is a record its canonical type is not raw storage, so that its fields are recorded. */
  predicate FieldsKept(pg: Program, t: TypeId)
    requires pg.Valid() && pg.Has(t)
  {
    pg.types[t].shape.RecordOf? ==> !pg.Typeless(Settled(pg, t))
  }

  /** The alias set of `t` is known and is not the one that aliases everything. */
  predicate Distinguished(pg: Program, st: State, t: TypeId)
    requires pg.Valid()
  {
    pg.Has(t) && Resolve(pg, st.memo, t).Some? && Resolve(pg, st.memo, t).value != 0
  }

  function SetOf(pg: Program, st: State, t: TypeId): nat
    requires pg.Valid() && Distinguished(pg, st, t)
  {
    Resolve(pg, st.memo, t).value
  }

  /** A chain of types, each containing the next and recording it, all with alias sets other than 0. */
  predicate Chain(pg: Program, st: State, p: seq<TypeId>)
    requires pg.Valid()
  {
    && |p| > 0
    && (forall i :: 0 <= i < |p| ==> Distinguished(pg, st, p[i]))
    && (forall i :: 0 <= i < |p| - 1 ==> Contains(pg, p[i], p[i + 1]) && FieldsKept(pg, p[i]))
  }

  function VoidSet(pg: Program, st: State): nat {
    if pg.voidPtr in st.memo then st.memo[pg.voidPtr] else 0
  }

  /** `f` is `s` or below it, or is the set of a pointer while `s` is or holds the universal pointer. */
  predicate Linked(pg: Program, st: State, s: nat, f: nat) {
    var v := VoidSet(pg, st);
    || s == f || f in EntryOf(st.sets, s).children
    || (v != 0 && EntryOf(st.sets, f).isPointer && EntryOf(st.sets, v).isPointer && (s == v || v in EntryOf(st.sets, s).children))
  }

  // ----- One step of containment -----

  lemma SameCanonicalResolve(pg: Program, memo: map<TypeId, nat>, a: TypeId, b: TypeId)
    requires pg.Valid() && pg.SameCanonical(a, b)
    ensures Resolve(pg, memo, a) == Resolve(pg, memo, b)
  {
  }

  /** A type with an alias set of its own that the language has no rule for has it stored, unless it is an array of unknown
      size, which uses that of its element. */
  lemma StoredOrIncomplete(pg: Program, st: State, t: TypeId)
    requires pg.Valid() && Distinguished(pg, st, t) && pg.types[Settled(pg, t)].hook == Default
    ensures var u := Settled(pg, t);
            || (u in st.memo && st.memo[u] == SetOf(pg, st, t))
            || (&& u !in st.memo && pg.types[u].shape.ArrayOf? && pg.Has(pg.types[u].shape.elem)
                && Resolve(pg, st.memo, pg.types[u].shape.elem) == Resolve(pg, st.memo, t))
  {
    var u := Settled(pg, t);
    assert pg.Ranked(u);
    assert Resolve(pg, st.memo, t) == ResolveSettled(pg, st.memo, u);
    if u !in st.memo && pg.types[u].shape.ArrayOf? {
      assert ResolveSettled(pg, st.memo, u) == Resolve(pg, st.memo, pg.types[u].shape.elem);
    }
  }

  /** Arrays and vectors have the alias set of their element. */
  lemma ElementShares(pg: Program, st: State, t: TypeId, g: TypeId)
    requires pg.Valid() && pg.CanonicalMatches() && Inv(pg, st, {}) && Distinguished(pg, st, t) && pg.Has(g)
    requires Contains(pg, t, g) && (pg.types[t].shape.ArrayOf? || pg.types[t].shape.VectorOf?)
    ensures Resolve(pg, st.memo, g) == Resolve(pg, st.memo, t)
  {
    var u := Settled(pg, t);
    StoredOrIncomplete(pg, st, t);
    assert pg.types[t].structural || pg.Matches(pg.types[t].shape, pg.types[u].shape);
    assert pg.Ranked(u);
    if u in st.memo { assert Shares(pg, st.memo, u); }
    var e := pg.types[u].shape.elem;
    assert pg.SameCanonical(g, e);
    SameCanonicalResolve(pg, st.memo, g, e);
  }

  /** A complex type has the alias set of its part below its own. */
  lemma PartBelow(pg: Program, st: State, t: TypeId, g: TypeId)
    requires pg.Valid() && pg.CanonicalMatches() && Inv(pg, st, {}) && Distinguished(pg, st, t) && Distinguished(pg, st, g)
    requires Contains(pg, t, g) && pg.types[t].shape.ComplexOf?
    ensures Covered(st.sets, SetOf(pg, st, t), SetOf(pg, st, g))
  {
    var u := Settled(pg, t);
    StoredOrIncomplete(pg, st, t);
    assert pg.types[t].structural || pg.Matches(pg.types[t].shape, pg.types[u].shape);
    var e := pg.types[u].shape.elem;
    SameCanonicalResolve(pg, st.memo, g, e);
    assert ComponentsRecorded(pg, st, u) && Component(pg, u, e);
  }

  /** A record type has the alias set of an addressable field below its own, or, for a pointer field of types that come from
      several units, that of the universal pointer. */
  lemma FieldBelow(pg: Program, st: State, t: TypeId, g: TypeId)
    requires pg.Valid() && pg.CanonicalMatches() && Inv(pg, st, {}) && Distinguished(pg, st, t) && Distinguished(pg, st, g)
    requires Contains(pg, t, g) && FieldsKept(pg, t) && pg.types[t].shape.RecordOf?
    ensures || Covered(st.sets, SetOf(pg, st, t), SetOf(pg, st, g))
            || (&& pg.lto && pg.PointerInside(g) && Resolve(pg, st.memo, pg.voidPtr).Some?
                && Covered(st.sets, SetOf(pg, st, t), Resolve(pg, st.memo, pg.voidPtr).value))
  {
    var u := Settled(pg, t);
    StoredOrIncomplete(pg, st, t);
    assert pg.types[t].structural || pg.Matches(pg.types[t].shape, pg.types[u].shape);
    var fs, gs := pg.types[t].shape.fields, pg.types[u].shape.fields;
    var i :| 0 <= i < |fs| && fs[i].addressable && fs[i].ty == g;
    var h := gs[i].ty;
    assert pg.Ranked(u);
    assert ComponentsRecorded(pg, st, u) && Component(pg, u, RecordedType(pg, h));
    if pg.lto && pg.PointerInside(h) {
      if !pg.PointerInside(g) { SameCanonicalPointer(pg, g, h); }
    } else {
      if !pg.SameCanonical(g, h) { assert false; }
      SameCanonicalResolve(pg, st.memo, g, h);
      if pg.lto { StrippedShares(pg, st, h); }
    }
  }

  /** Types with the same canonical type are both pointers, or arrays of pointers, or neither. */
  lemma SameCanonicalPointer(pg: Program, a: TypeId, b: TypeId)
    requires pg.Valid() && pg.CanonicalMatches() && pg.lto && pg.SameCanonical(a, b)
    ensures pg.PointerInside(a) == pg.PointerInside(b)
  {
    if a != b {
      var c := pg.types[a].canonical;
      assert pg.CanonicalOk(a) && pg.CanonicalOk(b);
      assert pg.Matches(pg.types[a].shape, pg.types[c].shape) && pg.Matches(pg.types[b].shape, pg.types[c].shape);
    }
  }

  /** Across units, stripping arrays and vectors does not change the alias set. */
  lemma {:induction false} StrippedShares(pg: Program, st: State, t: TypeId)
    requires pg.Valid() && pg.CanonicalMatches() && pg.lto && Inv(pg, st, {}) && Distinguished(pg, st, t)
    ensures Resolve(pg, st.memo, pg.Stripped(t)) == Resolve(pg, st.memo, t)
    decreases pg.rank[t]
  {
    assert pg.Ranked(t);
    match pg.types[t].shape
    case ArrayOf(e, _) =>
      ElementShares(pg, st, t, e);
      StrippedShares(pg, st, e);
    case VectorOf(e) =>
      ElementShares(pg, st, t, e);
      StrippedShares(pg, st, e);
    case _ =>
  }

  /** Across units, the alias set of a pointer, or of an array of pointers, is marked as a pointer set. */
  lemma PointerMarked(pg: Program, st: State, t: TypeId)
    requires pg.Valid() && pg.CanonicalMatches() && pg.lto && Inv(pg, st, {}) && Distinguished(pg, st, t) && pg.PointerInside(t)
    ensures EntryOf(st.sets, SetOf(pg, st, t)).isPointer
  {
    StrippedShares(pg, st, t);
    var p := pg.Stripped(t);
    var u := Settled(pg, p);
    assert pg.types[p].structural || pg.Matches(pg.types[p].shape, pg.types[u].shape);
    StoredOrIncomplete(pg, st, p);
    assert StoredOk(pg, st, u);
  }

  /** Inside a pointer, or an array of pointers, there are only pointers, with the same alias set. */
  lemma {:induction false} PointerChain(pg: Program, st: State, p: seq<TypeId>)
    requires pg.Valid() && pg.CanonicalMatches() && pg.lto && Inv(pg, st, {}) && Chain(pg, st, p) && pg.PointerInside(p[0])
    ensures SetOf(pg, st, p[|p| - 1]) == SetOf(pg, st, p[0])
  {
    if |p| <= 1 {
    } else {
      assert Contains(pg, p[0], p[0 + 1]);
      ElementShares(pg, st, p[0], p[1]);
      ChainTail(pg, st, p);
      PointerChain(pg, st, p[1..]);
    }
  }

  lemma ChainTail(pg: Program, st: State, p: seq<TypeId>)
    requires pg.Valid() && Chain(pg, st, p) && |p| > 1
    ensures Chain(pg, st, p[1..])
  {
    forall i | 0 <= i < |p[1..]| - 1 ensures Contains(pg, p[1..][i], p[1..][i + 1]) && FieldsKept(pg, p[1..][i]) {
      assert Contains(pg, p[i + 1], p[i + 1 + 1]);
    }
  }

  // ----- Any depth -----

  lemma LinkedThrough(pg: Program, st: State, s: nat, v: nat, f: nat)
    requires pg.Valid() && Inv(pg, st, {}) && Covered(st.sets, s, v) && v != 0 && Linked(pg, st, v, f)
    ensures Linked(pg, st, s, f)
  {
    if v != s {
      assert Absorbs(st.sets, s, v);
    }
  }

  /** If a chain of containment leads from one type to another, their alias sets are linked. */
  lemma {:induction false} ChainLinked(pg: Program, st: State, p: seq<TypeId>)
    requires pg.Valid() && pg.CanonicalMatches() && Inv(pg, st, {}) && Chain(pg, st, p)
    ensures Linked(pg, st, SetOf(pg, st, p[0]), SetOf(pg, st, p[|p| - 1]))
  {
    if |p| <= 1 {
    } else {
      var t, g := p[0], p[1];
      assert Contains(pg, p[0], p[0 + 1]);
      ChainTail(pg, st, p);
      ChainLinked(pg, st, p[1..]);
      var s, v, f := SetOf(pg, st, t), SetOf(pg, st, g), SetOf(pg, st, p[|p| - 1]);
      if pg.types[t].shape.ArrayOf? || pg.types[t].shape.VectorOf? {
        ElementShares(pg, st, t, g);
      } else if pg.types[t].shape.ComplexOf? {
        PartBelow(pg, st, t, g);
        LinkedThrough(pg, st, s, v, f);
      } else {
        FieldBelow(pg, st, t, g);
        if Covered(st.sets, s, v) {
          LinkedThrough(pg, st, s, v, f);
        } else {
          PointerChain(pg, st, p[1..]);
          PointerMarked(pg, st, g);
          VoidPtrStored(pg, st, {}, Resolve(pg, st.memo, pg.voidPtr).value);
          assert StoredOk(pg, st, pg.voidPtr);
        }
      }
    }
  }

  /** Linked alias sets conflict, in both orders. */
  lemma LinkedConflict(pg: Program, st: State, strict: bool, s: nat, f: nat)
    requires pg.Valid() && Inv(pg, st, {}) && Linked(pg, st, s, f)
    ensures Conflict(st.sets, strict, VoidSet(pg, st), s, f) && Conflict(st.sets, strict, VoidSet(pg, st), f, s)
  {
    var v := VoidSet(pg, st);
    if v in EntryOf(st.sets, s).children {
      assert Absorbs(st.sets, s, v);
    }
  }

  // ----- Whole compilations -----

  function GetAll(pg: Program, st: State, ts: seq<TypeId>): State
    requires pg.Valid() && forall i :: 0 <= i < |ts| ==> pg.Has(ts[i])
    decreases |ts|
  {
    if ts == [] then st else GetAll(pg, GetAliasSet(pg, st, ts[0]).0, ts[1..])
  }

  lemma StartOk(pg: Program)
    requires pg.Valid()
    ensures Inv(pg, START, {})
  {
  }

  /** After any sequence of lookups the invariant holds and every type looked up has its alias set. */
  lemma {:induction false} LookupsKeep(pg: Program, st: State, ts: seq<TypeId>)
    requires pg.Valid() && (forall i :: 0 <= i < |ts| ==> pg.Has(ts[i])) && Inv(pg, st, {})
    ensures var end := GetAll(pg, st, ts);
            && Inv(pg, end, {}) && Grows(st, end)
            && forall i :: 0 <= i < |ts| ==> Resolve(pg, end.memo, ts[i]).Some?
    decreases |ts|
  {
    if ts == [] {
    } else {
      GetKeeps(pg, st, {}, ts[0]);
      var st' := GetAliasSet(pg, st, ts[0]).0;
      LookupsKeep(pg, st', ts[1..]);
      var end := GetAll(pg, st', ts[1..]);
      GrowsTrans(st, st', end);
      InvKeys(pg, end, {});
      ResolveStable(pg, st'.memo, end.memo, ts[0]);
      forall i | 0 <= i < |ts| ensures Resolve(pg, end.memo, ts[i]).Some? {
        if i > 0 { assert ts[i] == ts[1..][i - 1]; }
      }
    }
  }

  /** Whatever types have been given alias sets, and in whatever order: if one type is nested in another at any depth,
      through types whose alias set is not 0, their alias sets conflict in both orders. */
  lemma NestedTypesConflict(pg: Program, ts: seq<TypeId>, p: seq<TypeId>, strict: bool)
    requires pg.Valid() && pg.CanonicalMatches() && forall i :: 0 <= i < |ts| ==> pg.Has(ts[i])
    requires Chain(pg, GetAll(pg, START, ts), p)
    ensures var st := GetAll(pg, START, ts);
            var s, f := SetOf(pg, st, p[0]), SetOf(pg, st, p[|p| - 1]);
            Conflict(st.sets, strict, VoidSet(pg, st), s, f) && Conflict(st.sets, strict, VoidSet(pg, st), f, s)
  {
    StartOk(pg);
    LookupsKeep(pg, START, ts);
    var st := GetAll(pg, START, ts);
    ChainLinked(pg, st, p);
    LinkedConflict(pg, st, strict, SetOf(pg, st, p[0]), SetOf(pg, st, p[|p| - 1]));
  }

  /** A lookup of a type that has its alias set returns it and changes nothing. */
  lemma {:induction false} LookupAgain(pg: Program, st: State, t: TypeId)
    requires pg.Valid() && pg.Has(t) && Resolve(pg, st.memo, t).Some?
    ensures GetAliasSet(pg, st, t) == (st, Resolve(pg, st.memo, t).value)
    decreases pg.rank[t], 2
  {
    assert pg.Ranked(t);
    var ty := pg.types[t];
    if !pg.Typeless(t) {
      if ty.structural {
        if ty.hook != Default { HookAgain(pg, st, t); }
        else if !ty.shape.CanonicalUsed() { SettledAgain(pg, st, t); }
      } else {
        assert pg.CanonicalOk(t);
        SettledAgain(pg, st, ty.canonical);
      }
    }
  }

  lemma {:induction false} HookAgain(pg: Program, st: State, t: TypeId)
    requires pg.Valid() && pg.Has(t) && ResolveHook(pg, st.memo, t).Some?
    ensures FromHook(pg, st, t) == (st, ResolveHook(pg, st.memo, t).value)
    decreases pg.rank[t], 0
  {
    assert pg.Ranked(t);
    if pg.types[t].hook.Like? { LookupAgain(pg, st, pg.types[t].hook.ty); }
  }

  lemma {:induction false} SettledAgain(pg: Program, st: State, t: TypeId)
    requires pg.Valid() && pg.Has(t) && ResolveSettled(pg, st.memo, t).Some?
    ensures GetSettled(pg, st, t) == (st, ResolveSettled(pg, st.memo, t).value)
    decreases pg.rank[t], 1
  {
    assert pg.Ranked(t);
    if t !in st.memo {
      if !pg.types[t].complete {
        if pg.types[t].shape.ArrayOf? { LookupAgain(pg, st, pg.types[t].shape.elem); }
      } else {
        HookAgain(pg, st, t);
      }
    }
  }

  // ----- A component that aliases everything -----

  /** void *; int; a record of an int stored as raw memory, whose alias set is 0; and a record of that. */
  function RawStorage(): Program {
    var plain := (shape: Shape, self: TypeId) => Type(shape, self, false, true, false, Default);
    Program([plain(VoidPtr, 0), plain(Scalar, 1),
             Type(RecordOf([Field(1, true)]), 2, false, true, true, Default),
             plain(RecordOf([Field(2, true)]), 3)],
            [0, 0, 1, 2], 0, false)
  }

  lemma RawStorageValid()
    ensures RawStorage().Valid() && RawStorage().CanonicalMatches()
  {
    var pg := RawStorage();
    assert pg.Ranked(0) && pg.Ranked(1) && pg.Ranked(2) && pg.Ranked(3);
    assert pg.CanonicalOk(0) && pg.CanonicalOk(1) && pg.CanonicalOk(2) && pg.CanonicalOk(3);
  }

  /** The alias sets in between must not be 0: the outer record is not recorded as a superset of the int inside the raw
      storage, and the two do not conflict. */
  lemma ZeroInBetween()
    ensures RawStorage().Valid() && Contains(RawStorage(), 3, 2) && Contains(RawStorage(), 2, 1)
    ensures var st := GetAll(RawStorage(), START, [3, 1]);
            && Resolve(RawStorage(), st.memo, 3) == Some(1) && Resolve(RawStorage(), st.memo, 1) == Some(2)
            && !Conflict(st.sets, true, VoidSet(RawStorage(), st), 1, 2)
  {
    RawStorageValid();
    var pg := RawStorage();
    assert pg.types[3].shape.fields[0] == Field(2, true) && pg.types[2].shape.fields[0] == Field(1, true);
    var outer := State([None, Some(EMPTY.(hasZeroChild := true))], map[3 := 1]);
    assert GetAliasSet(pg, State([None, None], map[3 := 1]), 2) == (State([None, None], map[3 := 1]), 0);
    assert RecordFields(pg, State([None, None], map[3 := 1]), 3, 1, 0) == State([None, None], map[3 := 1]);
    assert RecordFields(pg, State([None, None], map[3 := 1]), 3, 1, 1) == outer;
    var two: Sets := [None, None];
    var one: Sets := [None];
    assert one + one == two;
    assert NewSet(START.sets).0 == two;
    assert Fresh(START, 3) == (State([None, None], map[3 := 1]), 1);
    assert GetSettled(pg, START, 3) == (outer, 1);
    assert GetAliasSet(pg, START, 3) == (outer, 1);
    var both := State([None, Some(EMPTY.(hasZeroChild := true)), None], map[3 := 1, 1 := 2]);
    assert outer.sets + [None] == both.sets;
    assert NewSet(outer.sets) == (both.sets, 2);
    assert outer.memo[1 := 2] == both.memo;
    assert Fresh(outer, 1) == (both, 2);
    assert GetSettled(pg, outer, 1) == (both, 2);
    assert GetAliasSet(pg, outer, 1) == (both, 2);
    assert [3, 1][1..] == [1] && [1][1..] == [];
    assert GetAll(pg, both, []) == both;
    assert GetAll(pg, outer, [1]) == both;
  }

  // ----- The lookup that updates the table and the types in place -----

  class TypeAliases {
    const pg: Program
    const table: AliasTable
    var memo: map<TypeId, nat>

    constructor (pg: Program)
      ensures this.pg == pg && fresh(table) && At() == START
    {
      this.pg := pg;
      table := new AliasTable();
      memo := map[];
    }

    ghost function At(): State
      reads this, table
    {
      State(table.sets, memo)
    }

    method MakeFresh(t: TypeId) returns (s: nat)
      modifies this, table
      ensures (At(), s) == Fresh(old(At()), t)
    {
      s := table.NewAliasSet();
      memo := memo[t := s];
    }

    method Lookup(t: TypeId) returns (s: nat)
      requires pg.Valid() && pg.Has(t)
      modifies this, table
      ensures (At(), s) == GetAliasSet(pg, old(At()), t)
      decreases pg.rank[t], 2, 0
    {
      assert pg.Ranked(t);
      var ty := pg.types[t];
      if pg.Typeless(t) {
        return 0;
      }
      if ty.structural {
        if ty.hook != Default {
          s := LookupHook(t);
        } else if ty.shape.CanonicalUsed() {
          s := 0;
        } else {
          s := LookupSettled(t);
        }
      } else {
        assert pg.CanonicalOk(t);
        s := LookupSettled(ty.canonical);
      }
    }

    method LookupHook(t: TypeId) returns (s: nat)
      requires pg.Valid() && pg.Has(t)
      modifies this, table
      ensures (At(), s) == FromHook(pg, old(At()), t)
      decreases pg.rank[t], 0, 0
    {
      assert pg.Ranked(t);
      if pg.types[t].hook.Like? {
        s := Lookup(pg.types[t].hook.ty);
      } else {
        s := 0;
      }
    }

    method LookupSettled(t: TypeId) returns (s: nat)
      requires pg.Valid() && pg.Has(t)
      modifies this, table
      ensures (At(), s) == GetSettled(pg, old(At()), t)
      decreases pg.rank[t], 1, 0
    {
      assert pg.Ranked(t);
      var ty := pg.types[t];
      if t in memo {
        return memo[t];
      }
      if !ty.complete {
        if ty.shape.ArrayOf? {
          s := Lookup(ty.shape.elem);
        } else {
          s := 0;
        }
        return;
      }
      if ty.hook != Default {
        s := LookupHook(t);
        return;
      }
      match ty.shape {
        case FunctionType =>
          s := 0;
          memo := memo[t := s];
        case VectorOf(e) =>
          s := Lookup(e);
          memo := memo[t := s];
        case ArrayOf(e, nonaliased) =>
          if !nonaliased || ty.structural {
            s := Lookup(e);
            memo := memo[t := s];
          } else {
            s := MakeFresh(t);
          }
        case Pointer(rep) =>
          if rep == None {
            s := Lookup(pg.voidPtr);
          } else if rep.value in memo {
            s := memo[rep.value];
          } else {
            s := MakeFresh(rep.value);
          }
          memo := memo[t := s];
          if 0 < s < |table.sets| { table.MarkAsPointer(s); }
        case VoidPtr =>
          s := MakeFresh(t);
          if 0 < s < |table.sets| { table.MarkAsPointer(s); }
        case Scalar =>
          s := MakeFresh(t);
        case ComplexOf(e) =>
          s := MakeFresh(t);
          var v := Lookup(e);
          if s == v || 0 < s < |table.sets| { table.RecordAliasSubset(s, v); }
        case RecordOf(fields) =>
          s := MakeFresh(t);
          if !pg.Typeless(t) { RecordComponents(t, s); }
      }
    }

    /** The loop over the fields of a record type. */
    method RecordComponents(t: TypeId, sup: nat)
      requires pg.Valid() && pg.Has(t) && pg.types[t].shape.RecordOf?
      modifies this, table
      ensures At() == RecordFields(pg, old(At()), t, sup, |pg.types[t].shape.fields|)
      decreases pg.rank[t], 0, 0
    {
      assert pg.Ranked(t);
      var fields := pg.types[t].shape.fields;
      for n := 0 to |fields|
        invariant At() == RecordFields(pg, old(At()), t, sup, n)
      {
        if fields[n].addressable {
          StrippedRank(pg, fields[n].ty);
          var v := Lookup(RecordedType(pg, fields[n].ty));
          if sup == v || 0 < sup < |table.sets| { table.RecordAliasSubset(sup, v); }
        }
      }
    }
  }
}
