/** The alias set of a type: how types are given alias sets on demand, and how the components of a type are recorded as
    its subsets. */
module AliasTypes {
  import opened Options
  import opened AliasSets

  type TypeId = nat

  datatype Field = Field(ty: TypeId, addressable: bool)

  /** `rep` is the canonical pointer type rebuilt from the pointed-to type, or none when that is void or compared
      structurally, so that the universal pointer is used. */
  datatype Shape =
    | Scalar
    | FunctionType
    | VoidPtr
    | Pointer(rep: Option<TypeId>)
    | ArrayOf(elem: TypeId, nonaliased: bool)
    | VectorOf(elem: TypeId)
    | ComplexOf(elem: TypeId)
    | RecordOf(fields: seq<Field>)
  {
    predicate IsAggregate() { ArrayOf? || RecordOf? }
    predicate IsPointer() { Pointer? || VoidPtr? }
    predicate CanonicalUsed() { !IsPointer() && !ArrayOf? && !VectorOf? }
  }

  /** What the language says about the alias set of a type: nothing, that it aliases everything, or that it is the
      alias set of another type. */
  datatype Hook = Default | AliasAll | Like(ty: TypeId)

  datatype Type = Type(shape: Shape, canonical: TypeId, structural: bool, complete: bool, typeless: bool, hook: Hook)

  /** The types of a program, with a rank that witnesses that no type contains itself. */
  datatype Program = Program(types: seq<Type>, rank: seq<nat>, voidPtr: TypeId, lto: bool) {
    predicate Has(t: TypeId) {
      t < |types| && t < |rank|
    }

    function Shape(t: TypeId): Shape
      requires Has(t)
    {
      types[t].shape
    }

    predicate Below(u: TypeId, t: TypeId)
      requires Has(t)
    {
      Has(u) && rank[u] < rank[t]
    }

    /** Components, and the types a type borrows its alias set from, have a lower rank. */
    predicate Ranked(t: TypeId)
      requires Has(t) && Has(voidPtr)
    {
      && (match types[t].shape
          case ArrayOf(e, _) => Below(e, t)
          case VectorOf(e) => Below(e, t)
          case ComplexOf(e) => Below(e, t)
          case RecordOf(fs) => Below(voidPtr, t) && forall i :: 0 <= i < |fs| ==> Below(fs[i].ty, t)
          case Pointer(rep) =>
            && Below(voidPtr, t)
            && (rep.Some? ==> Has(rep.value) && rank[rep.value] <= rank[t] && types[rep.value].shape.Pointer?
                              && Memoizable(rep.value))
          case _ => true)
      && (types[t].hook.Like? ==> Below(types[t].hook.ty, t))
    }

    /** A type whose alias set is stored with it. */
    predicate Memoizable(t: TypeId)
      requires Has(t)
    {
      types[t].complete && types[t].hook == Default
    }

    predicate Typeless(t: TypeId)
      requires Has(t)
    {
      types[t].shape.IsAggregate() && types[t].typeless
    }

    /** The types whose components are recorded: records, unless they are raw storage, and complex types. */
    predicate Owner(t: TypeId)
      requires Has(t)
    {
      (types[t].shape.RecordOf? && !Typeless(t)) || types[t].shape.ComplexOf?
    }

    /** The two types always have the same alias set because they share the canonical type. */
    predicate SameCanonical(a: TypeId, b: TypeId) {
      && Has(a) && Has(b)
      && (a == b || (&& !types[a].structural && !types[b].structural && types[a].canonical == types[b].canonical
                     && Typeless(a) == Typeless(b)))
    }

    /** The pointer an array or vector type is made of, or the type itself. */
    function Stripped(t: TypeId): (u: TypeId)
      requires Valid() && Has(t)
      ensures Has(u)
      decreases rank[t]
    {
      assert Ranked(t);
      match types[t].shape
      case ArrayOf(e, _) => Stripped(e)
      case VectorOf(e) => Stripped(e)
      case _ => t
    }

    predicate PointerInside(t: TypeId)
      requires Valid() && Has(t)
    {
      types[Stripped(t)].shape.IsPointer()
    }

    predicate Valid() {
      && Has(voidPtr) && types[voidPtr].shape.VoidPtr? && Memoizable(voidPtr)
      && (!types[voidPtr].structural ==> types[voidPtr].canonical == voidPtr)
      && |rank| == |types|
      && (forall t :: 0 <= t < |types| ==> Ranked(t) && (types[t].shape.VoidPtr? ==> t == voidPtr))
      && (forall t :: 0 <= t < |types| && !types[t].structural ==> CanonicalOk(t))
      && (lto ==> forall t :: 0 <= t < |types| && !types[t].shape.CanonicalUsed() ==>
                    types[t].hook == Default && (types[t].structural || types[t].shape.IsPointer()))
    }

    predicate CanonicalOk(t: TypeId)
      requires Has(t)
    {
      var c := types[t].canonical;
      Has(c) && !types[c].structural && types[c].canonical == c && rank[c] == rank[t]
    }

    /** The canonical type of a type has the same shape, and components with the same canonical types; when types come from
        several units, component pointers may differ. */
    predicate CanonicalMatches()
      requires Valid()
    {
      forall t :: 0 <= t < |types| && !types[t].structural ==>
        var c := types[t].canonical;
        CanonicalOk(t) && Matches(types[t].shape, types[c].shape)
    }

    predicate Matches(a: Shape, b: Shape)
      requires Valid()
    {
      match (a, b)
      case (ArrayOf(e, n), ArrayOf(f, m)) => n == m && SameCanonical(e, f)
      case (VectorOf(e), VectorOf(f)) => SameCanonical(e, f)
      case (ComplexOf(e), ComplexOf(f)) => SameCanonical(e, f)
      case (RecordOf(fs), RecordOf(gs)) =>
        |fs| == |gs| && forall i :: 0 <= i < |fs| ==>
          fs[i].addressable == gs[i].addressable
          && (SameCanonical(fs[i].ty, gs[i].ty)
              || (lto && Has(fs[i].ty) && Has(gs[i].ty) && PointerInside(fs[i].ty) && PointerInside(gs[i].ty)))
      case _ => a == b
    }
  }

  datatype State = State(sets: Sets, memo: map<TypeId, nat>)

  const START := State([], map[])

  // ----- get_alias_set -----

  function Fresh(st: State, t: TypeId): (State, nat) {
    var (sets, s) := NewSet(st.sets);
    (State(sets, st.memo[t := s]), s)
  }

  function MarkSet(st: State, s: nat): State {
    if s != 0 && s < |st.sets| then st.(sets := MarkPointer(st.sets, s)) else st
  }

  function RecordIn(st: State, sup: nat, sub: nat): State {
    if sup == sub || 0 < sup < |st.sets| then st.(sets := RecordSubset(st.sets, sup, sub)) else st
  }

  function GetAliasSet(pg: Program, st: State, t: TypeId): (State, nat)
    requires pg.Valid() && pg.Has(t)
    decreases pg.rank[t], 2, 0
  {
    assert pg.Ranked(t);
    var ty := pg.types[t];
    if pg.Typeless(t) then (st, 0)
    else if ty.structural then
      if ty.hook != Default then FromHook(pg, st, t)
      else if ty.shape.CanonicalUsed() then (st, 0)
      else GetSettled(pg, st, t)
    else
      assert pg.CanonicalOk(t);
      GetSettled(pg, st, ty.canonical)
  }

  function FromHook(pg: Program, st: State, t: TypeId): (State, nat)
    requires pg.Valid() && pg.Has(t)
    decreases pg.rank[t], 0, 0
  {
    assert pg.Ranked(t);
    if pg.types[t].hook.Like? then GetAliasSet(pg, st, pg.types[t].hook.ty) else (st, 0)
  }

  /** The alias set of a type that is its own representative. */
  function GetSettled(pg: Program, st: State, t: TypeId): (State, nat)
    requires pg.Valid() && pg.Has(t)
    decreases pg.rank[t], 1, 0
  {
    assert pg.Ranked(t);
    var ty := pg.types[t];
    if t in st.memo then (st, st.memo[t])
    else if !ty.complete then
      if ty.shape.ArrayOf? then GetAliasSet(pg, st, ty.shape.elem) else (st, 0)
    else if ty.hook != Default then FromHook(pg, st, t)
    else
      match ty.shape
      case FunctionType => (st.(memo := st.memo[t := 0]), 0)
      case VectorOf(e) => Share(GetAliasSet(pg, st, e), t)
      case ArrayOf(e, nonaliased) => if !nonaliased || ty.structural then Share(GetAliasSet(pg, st, e), t) else Fresh(st, t)
      case Pointer(rep) => GetPointer(pg, st, t)
      case VoidPtr => var (st', s) := Fresh(st, t); (MarkSet(st', s), s)
      case Scalar => Fresh(st, t)
      case ComplexOf(e) =>
        var (st', s) := Fresh(st, t);
        var (st'', v) := GetAliasSet(pg, st', e);
        (RecordIn(st'', s, v), s)
      case RecordOf(fields) =>
        var (st', s) := Fresh(st, t);
        if pg.Typeless(t) then (st', s) else (RecordFields(pg, st', t, s, |fields|), s)
  }

  /** Before components are recorded the alias set of the type is asked for again; it is 0 exactly for raw storage. */
  lemma AskedAgain(pg: Program, st: State, t: TypeId)
    requires pg.Valid() && pg.Has(t) && !pg.types[t].structural && pg.types[t].canonical == t
    ensures GetAliasSet(pg, Fresh(st, t).0, t) == (Fresh(st, t).0, if pg.Typeless(t) then 0 else Fresh(st, t).1)
  {
  }

  function Share(r: (State, nat), t: TypeId): (State, nat) {
    (r.0.(memo := r.0.memo[t := r.1]), r.1)
  }

  function GetPointer(pg: Program, st: State, t: TypeId): (State, nat)
    requires pg.Valid() && pg.Has(t) && pg.types[t].shape.Pointer?
    decreases pg.rank[t], 0, 0
  {
    assert pg.Ranked(t);
    var rep := pg.types[t].shape.rep;
    var (st', s) := if rep == None then GetAliasSet(pg, st, pg.voidPtr)
                    else if rep.value in st.memo then (st, st.memo[rep.value])
                    else Fresh(st, rep.value);
    (MarkSet(st'.(memo := st'.memo[t := s]), s), s)
  }

  /** The type recorded for a field: across units, any pointer counts as the universal one. */
  function RecordedType(pg: Program, u: TypeId): TypeId
    requires pg.Valid() && pg.Has(u)
  {
    if pg.lto && pg.PointerInside(u) then pg.voidPtr else if pg.lto then pg.Stripped(u) else u
  }

  /** Records the first `n` fields of record type `t`. */
  function RecordFields(pg: Program, st: State, t: TypeId, sup: nat, n: nat): State
    requires pg.Valid() && pg.Has(t) && pg.types[t].shape.RecordOf? && n <= |pg.types[t].shape.fields|
    decreases pg.rank[t], 0, n
  {
    if n == 0 then st
    else
      assert pg.Ranked(t);
      var st' := RecordFields(pg, st, t, sup, n - 1);
      var f := pg.types[t].shape.fields[n - 1];
      if f.addressable then
        StrippedRank(pg, f.ty);
        var (st'', v) := GetAliasSet(pg, st', RecordedType(pg, f.ty));
        RecordIn(st'', sup, v)
      else st'
  }

  lemma StrippedRank(pg: Program, t: TypeId)
    requires pg.Valid() && pg.Has(t)
    ensures pg.rank[pg.Stripped(t)] <= pg.rank[t]
    decreases pg.rank[t]
  {
    assert pg.Ranked(t);
    match pg.types[t].shape
    case ArrayOf(e, _) => StrippedRank(pg, e);
    case VectorOf(e) => StrippedRank(pg, e);
    case _ =>
  }

  // ----- Reading the alias set of a type without changing anything -----

  /** The alias set `t` has, if looking it up changes nothing. */
  function Resolve(pg: Program, memo: map<TypeId, nat>, t: TypeId): Option<nat>
    requires pg.Valid() && pg.Has(t)
    decreases pg.rank[t], 2
  {
    assert pg.Ranked(t);
    var ty := pg.types[t];
    if pg.Typeless(t) then Some(0)
    else if ty.structural then
      if ty.hook != Default then ResolveHook(pg, memo, t)
      else if ty.shape.CanonicalUsed() then Some(0)
      else ResolveSettled(pg, memo, t)
    else
      assert pg.CanonicalOk(t);
      ResolveSettled(pg, memo, ty.canonical)
  }

  function ResolveHook(pg: Program, memo: map<TypeId, nat>, t: TypeId): Option<nat>
    requires pg.Valid() && pg.Has(t)
    decreases pg.rank[t], 0
  {
    assert pg.Ranked(t);
    if pg.types[t].hook.Like? then Resolve(pg, memo, pg.types[t].hook.ty) else Some(0)
  }

  function ResolveSettled(pg: Program, memo: map<TypeId, nat>, t: TypeId): Option<nat>
    requires pg.Valid() && pg.Has(t)
    decreases pg.rank[t], 1
  {
    assert pg.Ranked(t);
    var ty := pg.types[t];
    if t in memo then Some(memo[t])
    else if !ty.complete then
      if ty.shape.ArrayOf? then Resolve(pg, memo, ty.shape.elem) else Some(0)
    else if ty.hook != Default then ResolveHook(pg, memo, t)
    else None
  }

  // ----- What holds of the table and the stored alias sets -----

  /** What a set's child has, the set has. */
  ghost predicate Absorbs(sets: Sets, s: nat, v: nat) {
    var e, f := EntryOf(sets, s), EntryOf(sets, v);
    f.children <= e.children && (f.hasPointer ==> e.hasPointer)
  }

  ghost predicate TableOk(sets: Sets) {
    && EntryOf(sets, 0) == EMPTY
    && (forall s, v :: v in EntryOf(sets, s).children ==> 0 < v < |sets| && Absorbs(sets, s, v))
    && (forall s :: EntryOf(sets, s).isPointer ==> EntryOf(sets, s).hasPointer)
  }

  /** `v` is the alias set `sup` itself, or recorded below it. */
  predicate Covered(sets: Sets, sup: nat, v: nat) {
    v == sup || (if v == 0 then EntryOf(sets, sup).hasZeroChild else v in EntryOf(sets, sup).children)
  }

  /** The components of owner type `t` that are recorded: the addressable fields, or the element. */
  predicate Component(pg: Program, t: TypeId, g: TypeId)
    requires pg.Valid() && pg.Has(t)
  {
    match pg.types[t].shape
    case ComplexOf(e) => g == e
    case RecordOf(fs) => exists i :: 0 <= i < |fs| && pg.Has(fs[i].ty) && fs[i].addressable && g == RecordedType(pg, fs[i].ty)
    case _ => false
  }

  /** Every recorded component of `t` is covered. */
  ghost predicate ComponentsRecorded(pg: Program, st: State, t: TypeId)
    requires pg.Valid() && pg.Has(t) && t in st.memo
  {
    forall g :: Component(pg, t, g) && pg.Has(g) ==>
      Resolve(pg, st.memo, g).Some? && Covered(st.sets, st.memo[t], Resolve(pg, st.memo, g).value)
  }

  /** The entry of a stored alias set. */
  ghost predicate StoredOk(pg: Program, st: State, t: TypeId)
    requires pg.Valid() && t in st.memo
  {
    && pg.Has(t) && pg.Memoizable(t) && (st.memo[t] == 0 || st.memo[t] < |st.sets|)
    && (pg.Owner(t) ==> st.memo[t] != 0)
    && (pg.types[t].shape.IsPointer() ==> st.memo[t] != 0 && EntryOf(st.sets, st.memo[t]).isPointer)
  }

  /** An alias set that belongs to an owner is shared only with types of at least its rank. */
  ghost predicate OwnersOk(pg: Program, st: State)
    requires pg.Valid()
  {
    forall t, u :: t in st.memo && u in st.memo && pg.Has(t) && pg.Has(u) ==>
      (pg.Owner(t) && st.memo[u] == st.memo[t] ==> pg.rank[u] >= pg.rank[t])
  }

  /** Types whose components are still being recorded; nothing has their alias set as a subset yet. */
  ghost predicate OpenOk(pg: Program, st: State, open: set<TypeId>)
    requires pg.Valid()
  {
    forall t :: t in open ==>
      && t in st.memo && pg.Has(t) && pg.Owner(t)
      && forall s :: st.memo[t] !in EntryOf(st.sets, s).children
  }

  /** The element whose alias set a vector or array takes. */
  function SharedElement(pg: Program, t: TypeId): Option<TypeId>
    requires pg.Has(t)
  {
    match pg.types[t].shape
    case VectorOf(e) => Some(e)
    case ArrayOf(e, nonaliased) => if !nonaliased || pg.types[t].structural then Some(e) else None
    case _ => None
  }

  predicate Shares(pg: Program, memo: map<TypeId, nat>, t: TypeId)
    requires pg.Valid() && pg.Has(t) && t in memo
  {
    var e := SharedElement(pg, t);
    e.Some? && pg.Has(e.value) ==> Resolve(pg, memo, e.value) == Some(memo[t])
  }

  ghost predicate AllShare(pg: Program, memo: map<TypeId, nat>)
    requires pg.Valid()
  {
    forall t :: t in memo && pg.Has(t) ==> Shares(pg, memo, t)
  }

  ghost predicate Inv(pg: Program, st: State, open: set<TypeId>)
    requires pg.Valid()
  {
    && TableOk(st.sets)
    && AllShare(pg, st.memo)
    && (forall t :: t in st.memo ==> StoredOk(pg, st, t))
    && OwnersOk(pg, st)
    && OpenOk(pg, st, open)
    && (forall t :: t in st.memo && t !in open && pg.Has(t) && pg.Owner(t) ==> ComponentsRecorded(pg, st, t))
  }

  /** Nothing known is forgotten. */
  ghost predicate Grows(a: State, b: State) {
    && (forall t :: t in a.memo ==> t in b.memo && b.memo[t] == a.memo[t])
    && |a.sets| <= |b.sets|
    && forall s :: EntryOf(a.sets, s).children <= EntryOf(b.sets, s).children
                   && (EntryOf(a.sets, s).isPointer ==> EntryOf(b.sets, s).isPointer)
                   && (EntryOf(a.sets, s).hasZeroChild ==> EntryOf(b.sets, s).hasZeroChild)
  }

  lemma GrowsTrans(a: State, b: State, c: State)
    requires Grows(a, b) && Grows(b, c)
    ensures Grows(a, c)
  {
  }

  /** Only complete types without a language rule are stored. */
  ghost predicate KeysOk(pg: Program, memo: map<TypeId, nat>)
    requires pg.Valid()
  {
    forall t :: t in memo ==> pg.Has(t) && pg.Memoizable(t)
  }

  ghost predicate Extended(m: map<TypeId, nat>, n: map<TypeId, nat>) {
    forall u :: u in m ==> u in n && n[u] == m[u]
  }

  /** A resolved alias set stays the same when more types are given alias sets. */
  lemma {:induction false} ResolveStable(pg: Program, m: map<TypeId, nat>, n: map<TypeId, nat>, t: TypeId)
    requires pg.Valid() && pg.Has(t) && KeysOk(pg, n) && Extended(m, n) && Resolve(pg, m, t).Some?
    ensures Resolve(pg, n, t) == Resolve(pg, m, t)
    decreases pg.rank[t], 2
  {
    assert pg.Ranked(t);
    var ty := pg.types[t];
    if !pg.Typeless(t) {
      if ty.structural {
        if ty.hook != Default { ResolveHookStable(pg, m, n, t); }
        else if !ty.shape.CanonicalUsed() { ResolveSettledStable(pg, m, n, t); }
      } else {
        assert pg.CanonicalOk(t);
        ResolveSettledStable(pg, m, n, ty.canonical);
      }
    }
  }

  lemma {:induction false} ResolveHookStable(pg: Program, m: map<TypeId, nat>, n: map<TypeId, nat>, t: TypeId)
    requires pg.Valid() && pg.Has(t) && KeysOk(pg, n) && Extended(m, n) && ResolveHook(pg, m, t).Some?
    ensures ResolveHook(pg, n, t) == ResolveHook(pg, m, t)
    decreases pg.rank[t], 0
  {
    assert pg.Ranked(t);
    if pg.types[t].hook.Like? { ResolveStable(pg, m, n, pg.types[t].hook.ty); }
  }

  lemma {:induction false} ResolveSettledStable(pg: Program, m: map<TypeId, nat>, n: map<TypeId, nat>, t: TypeId)
    requires pg.Valid() && pg.Has(t) && KeysOk(pg, n) && Extended(m, n) && ResolveSettled(pg, m, t).Some?
    ensures ResolveSettled(pg, n, t) == ResolveSettled(pg, m, t)
    decreases pg.rank[t], 1
  {
    assert pg.Ranked(t);
    var ty := pg.types[t];
    if t !in m {
      if !ty.complete {
        if ty.shape.ArrayOf? { ResolveStable(pg, m, n, ty.shape.elem); }
      } else {
        ResolveHookStable(pg, m, n, t);
      }
    }
  }

  /** The premises under which a resolved alias set belongs to an owner. */
  ghost predicate OwnedBy(pg: Program, st: State, v: Option<nat>, owner: TypeId)
    requires pg.Valid()
  {
    && OwnersOk(pg, st) && KeysOk(pg, st.memo)
    && owner in st.memo && pg.Has(owner) && pg.Owner(owner) && st.memo[owner] != 0
    && v == Some(st.memo[owner])
  }

  /** The alias set of a type is not that of an owner of higher rank. */
  lemma {:induction false} ResolveRank(pg: Program, st: State, t: TypeId, owner: TypeId)
    requires pg.Valid() && pg.Has(t) && OwnedBy(pg, st, Resolve(pg, st.memo, t), owner)
    ensures pg.rank[owner] <= pg.rank[t]
    decreases pg.rank[t], 2
  {
    assert pg.Ranked(t);
    var ty := pg.types[t];
    if ty.structural {
      if ty.hook != Default { ResolveHookRank(pg, st, t, owner); } else { ResolveSettledRank(pg, st, t, owner); }
    } else {
      assert pg.CanonicalOk(t);
      ResolveSettledRank(pg, st, ty.canonical, owner);
    }
  }

  lemma {:induction false} ResolveHookRank(pg: Program, st: State, t: TypeId, owner: TypeId)
    requires pg.Valid() && pg.Has(t) && OwnedBy(pg, st, ResolveHook(pg, st.memo, t), owner)
    ensures pg.rank[owner] <= pg.rank[t]
    decreases pg.rank[t], 0
  {
    assert pg.Ranked(t);
    ResolveRank(pg, st, pg.types[t].hook.ty, owner);
  }

  lemma {:induction false} ResolveSettledRank(pg: Program, st: State, t: TypeId, owner: TypeId)
    requires pg.Valid() && pg.Has(t) && OwnedBy(pg, st, ResolveSettled(pg, st.memo, t), owner)
    ensures pg.rank[owner] <= pg.rank[t]
    decreases pg.rank[t], 1
  {
    assert pg.Ranked(t);
    if t !in st.memo {
      if !pg.types[t].complete {
        ResolveRank(pg, st, pg.types[t].shape.elem, owner);
      } else {
        ResolveHookRank(pg, st, t, owner);
      }
    }
  }

  // ----- The elementary steps keep the invariant -----

  lemma InvKeys(pg: Program, st: State, open: set<TypeId>)
    requires pg.Valid() && Inv(pg, st, open)
    ensures KeysOk(pg, st.memo)
  {
    forall t | t in st.memo ensures pg.Has(t) && pg.Memoizable(t) {
      assert StoredOk(pg, st, t);
    }
  }

  /** What is recorded stays recorded while the state grows. */
  lemma RecordedStable(pg: Program, a: State, b: State, t: TypeId)
    requires pg.Valid() && pg.Has(t) && t in a.memo && ComponentsRecorded(pg, a, t) && Grows(a, b) && KeysOk(pg, b.memo)
    ensures ComponentsRecorded(pg, b, t)
  {
    forall g | Component(pg, t, g) && pg.Has(g)
      ensures Resolve(pg, b.memo, g).Some? && Covered(b.sets, b.memo[t], Resolve(pg, b.memo, g).value)
    {
      ResolveStable(pg, a.memo, b.memo, g);
    }
  }

  /** Owners that were recorded stay recorded. */
  lemma OwnersStayRecorded(pg: Program, a: State, b: State, open: set<TypeId>)
    requires pg.Valid() && Inv(pg, a, open) && Grows(a, b) && KeysOk(pg, b.memo)
    ensures forall t :: t in a.memo && t !in open && pg.Has(t) && pg.Owner(t) ==> ComponentsRecorded(pg, b, t)
  {
    forall t | t in a.memo && t !in open && pg.Has(t) && pg.Owner(t)
      ensures ComponentsRecorded(pg, b, t)
    {
      RecordedStable(pg, a, b, t);
    }
  }

  lemma FreshTable(st: State, t: TypeId)
    requires TableOk(st.sets)
    ensures var (st', s) := Fresh(st, t);
            && TableOk(st'.sets) && s != 0 && |st.sets| <= s < |st'.sets|
            && forall x :: EntryOf(st'.sets, x) == EntryOf(st.sets, x)
  {
    var (st', s) := Fresh(st, t);
    forall x ensures EntryOf(st'.sets, x) == EntryOf(st.sets, x) {
    }
    forall x, v | v in EntryOf(st'.sets, x).children
      ensures 0 < v < |st'.sets| && Absorbs(st'.sets, x, v)
    {
      assert v in EntryOf(st.sets, x).children;
      assert Absorbs(st.sets, x, v);
    }
  }

  /** Storing an alias set with type `t`: it must not belong to an owner of higher rank. */
  ghost predicate MayStore(pg: Program, st: State, t: TypeId, s: nat)
    requires pg.Valid()
  {
    && pg.Has(t) && pg.Memoizable(t) && t !in st.memo && (s == 0 || s < |st.sets|)
    && (pg.types[t].shape.IsPointer() ==> s != 0 && EntryOf(st.sets, s).isPointer)
    && (var e := SharedElement(pg, t); e.Some? && pg.Has(e.value) ==> Resolve(pg, st.memo, e.value) == Some(s))
    && (forall x :: x in st.memo && pg.Has(x) && pg.Owner(x) && st.memo[x] == s ==> pg.rank[x] <= pg.rank[t])
  }

  lemma StoreKeepsOwners(pg: Program, st: State, t: TypeId, s: nat)
    requires pg.Valid() && OwnersOk(pg, st) && MayStore(pg, st, t, s)
    requires pg.Owner(t) ==> forall x :: x in st.memo ==> st.memo[x] != s
    ensures OwnersOk(pg, st.(memo := st.memo[t := s]))
  {
  }

  lemma StoreKeepsShares(pg: Program, st: State, t: TypeId, s: nat)
    requires pg.Valid() && AllShare(pg, st.memo) && KeysOk(pg, st.memo) && MayStore(pg, st, t, s)
    ensures AllShare(pg, st.memo[t := s])
  {
    var n := st.memo[t := s];
    assert KeysOk(pg, n);
    forall u | u in n && pg.Has(u) ensures Shares(pg, n, u) {
      var e := SharedElement(pg, u);
      if e.Some? && pg.Has(e.value) {
        if u != t { assert Shares(pg, st.memo, u); }
        ResolveStable(pg, st.memo, n, e.value);
      }
    }
  }

  /** Storing an alias set keeps the invariant; an owner, which needs an alias set of its own, is open from then on. */
  lemma StoreKeeps(pg: Program, st: State, open: set<TypeId>, t: TypeId, s: nat)
    requires pg.Valid() && Inv(pg, st, open) && MayStore(pg, st, t, s)
    requires pg.Owner(t) ==>
               s != 0 && (forall x :: x in st.memo ==> st.memo[x] != s) && (forall x :: s !in EntryOf(st.sets, x).children)
    ensures var st' := st.(memo := st.memo[t := s]);
            Grows(st, st') && Inv(pg, st', if pg.Owner(t) then open + {t} else open)
  {
    hide ComponentsRecorded, StoredOk, TableOk, OwnersOk, AllShare, EntryOf;
    var st' := st.(memo := st.memo[t := s]);
    assert t !in st.memo;
    StoreKeepsOwners(pg, st, t, s);
    StoreKeepsStored(pg, st, open, t, s);
    InvKeys(pg, st, open);
    StoreKeepsShares(pg, st, t, s);
    OwnersStayRecorded(pg, st, st', open);
  }

  lemma StoreKeepsStored(pg: Program, st: State, open: set<TypeId>, t: TypeId, s: nat)
    requires pg.Valid() && Inv(pg, st, open) && MayStore(pg, st, t, s)
    requires pg.Owner(t) ==> s != 0
    ensures var st' := st.(memo := st.memo[t := s]); forall u :: u in st'.memo ==> StoredOk(pg, st', u)
  {
    var st' := st.(memo := st.memo[t := s]);
    forall u | u in st'.memo ensures StoredOk(pg, st', u) {
      if u != t { assert StoredOk(pg, st, u); }
    }
  }

  /** A change of the table alone that forgets nothing keeps the invariant. */
  lemma TableKeeps(pg: Program, st: State, open: set<TypeId>, sets: Sets)
    requires pg.Valid() && Inv(pg, st, open) && TableOk(sets) && Grows(st, st.(sets := sets))
    requires forall t, x :: t in open && t in st.memo ==> st.memo[t] !in EntryOf(sets, x).children
    ensures Inv(pg, st.(sets := sets), open)
  {
    var st' := st.(sets := sets);
    forall u | u in st'.memo ensures StoredOk(pg, st', u) {
      assert StoredOk(pg, st, u);
    }
    InvKeys(pg, st, open);
    OwnersStayRecorded(pg, st, st', open);
  }

  /** A new alias set for `t`, which is opened if its components are still to be recorded. */
  lemma FreshKeeps(pg: Program, st: State, open: set<TypeId>, t: TypeId)
    requires pg.Valid() && Inv(pg, st, open) && pg.Has(t) && pg.Memoizable(t) && t !in st.memo
    requires !pg.types[t].shape.IsPointer() && SharedElement(pg, t) == None
    ensures var (st', s) := Fresh(st, t);
            && Grows(st, st') && 0 < s < |st'.sets|
            && Inv(pg, st', if pg.Owner(t) then open + {t} else open)
  {
    var (sets, s) := NewSet(st.sets);
    FreshTable(st, t);
    forall x, y | x in open && x in st.memo ensures st.memo[x] !in EntryOf(sets, y).children {
      assert EntryOf(sets, y) == EntryOf(st.sets, y);
    }
    TableKeeps(pg, st, open, sets);
    FreshUnused(pg, st, open, sets, s);
    StoreKeeps(pg, st.(sets := sets), open, t, s);
  }

  lemma FreshUnused(pg: Program, st: State, open: set<TypeId>, sets: Sets, s: nat)
    requires pg.Valid() && Inv(pg, st, open) && (sets, s) == NewSet(st.sets)
    ensures forall x :: x in st.memo ==> st.memo[x] != s
    ensures forall x :: s !in EntryOf(sets, x).children
  {
    forall x | x in st.memo ensures st.memo[x] != s {
      assert StoredOk(pg, st, x);
    }
    forall x ensures s !in EntryOf(sets, x).children {
      assert EntryOf(sets, x) == EntryOf(st.sets, x);
    }
  }

  /** Marking a set that is nobody's subset, or is marked already. */
  lemma MarkTable(sets: Sets, s: nat)
    requires TableOk(sets) && 0 < s < |sets| && (EntryOf(sets, s).isPointer || forall x :: s !in EntryOf(sets, x).children)
    ensures TableOk(MarkPointer(sets, s))
    ensures forall x :: EntryOf(MarkPointer(sets, s), x).children == EntryOf(sets, x).children
                        && (EntryOf(sets, x).isPointer ==> EntryOf(MarkPointer(sets, s), x).isPointer)
                        && EntryOf(MarkPointer(sets, s), x).hasZeroChild == EntryOf(sets, x).hasZeroChild
  {
    var sets' := MarkPointer(sets, s);
    forall x ensures EntryOf(sets', x).isPointer ==> EntryOf(sets', x).hasPointer {
      assert EntryOf(sets, x).isPointer ==> EntryOf(sets, x).hasPointer;
    }
    forall x, v | v in EntryOf(sets', x).children
      ensures 0 < v < |sets'| && Absorbs(sets', x, v)
    {
      assert v in EntryOf(sets, x).children && Absorbs(sets, x, v);
    }
  }

  /** Recording a subset of a set that is nobody's subset. */
  lemma RecordTable(sets: Sets, sup: nat, v: nat)
    requires TableOk(sets) && 0 < sup < |sets| && v != sup && v < |sets| && forall x :: sup !in EntryOf(sets, x).children
    ensures TableOk(RecordSubset(sets, sup, v))
    ensures forall x :: EntryOf(sets, x).children <= EntryOf(RecordSubset(sets, sup, v), x).children
                        && EntryOf(RecordSubset(sets, sup, v), x).isPointer == EntryOf(sets, x).isPointer
                        && (EntryOf(sets, x).hasZeroChild ==> EntryOf(RecordSubset(sets, sup, v), x).hasZeroChild)
    ensures forall x :: EntryOf(RecordSubset(sets, sup, v), x).children <=
                        EntryOf(sets, x).children + EntryOf(sets, v).children + {v}
    ensures Covered(RecordSubset(sets, sup, v), sup, v)
  {
    var sets' := RecordSubset(sets, sup, v);
    forall x ensures EntryOf(sets', x).isPointer ==> EntryOf(sets', x).hasPointer {
      assert EntryOf(sets, x).isPointer ==> EntryOf(sets, x).hasPointer;
    }
    forall x, y | y in EntryOf(sets', x).children
      ensures 0 < y < |sets'| && Absorbs(sets', x, y)
    {
      if x != sup || v == 0 {
        assert y in EntryOf(sets, x).children && Absorbs(sets, x, y);
      } else if y in EntryOf(sets, sup).children {
        assert Absorbs(sets, sup, y);
      } else if y in EntryOf(sets, v).children {
        assert Absorbs(sets, v, y);
      }
    }
  }

  lemma RecordKeeps(pg: Program, st: State, open: set<TypeId>, t: TypeId, v: nat)
    requires pg.Valid() && Inv(pg, st, open) && t in open && t in st.memo && (v == 0 || v < |st.sets|)
    requires forall x :: x in open && x in st.memo ==> st.memo[x] != v
    ensures var st' := RecordIn(st, st.memo[t], v);
            && Grows(st, st') && Inv(pg, st', open) && st'.memo == st.memo
            && Covered(st'.sets, st.memo[t], v)
  {
    assert StoredOk(pg, st, t);
    var sup := st.memo[t];
    RecordTable(st.sets, sup, v);
    TableKeeps(pg, st, open, RecordSubset(st.sets, sup, v));
  }

  // ----- Giving a type its alias set keeps the invariant -----

  /** What a lookup of `t` that ended in `r` achieved. */
  ghost predicate Achieved(pg: Program, st: State, open: set<TypeId>, t: TypeId, r: (State, nat), found: Option<nat>)
    requires pg.Valid() && pg.Has(t)
  {
    && Inv(pg, r.0, open) && Grows(st, r.0)
    && (r.1 == 0 || r.1 < |r.0.sets|)
    && found == Some(r.1)
    && forall k :: k in r.0.memo && k !in st.memo ==> pg.Has(k) && pg.rank[k] <= pg.rank[t]
  }

  ghost predicate Above(pg: Program, open: set<TypeId>, t: TypeId)
    requires pg.Has(t)
  {
    forall o :: o in open ==> pg.Has(o) && pg.rank[o] > pg.rank[t]
  }

  lemma {:induction false} GetKeeps(pg: Program, st: State, open: set<TypeId>, t: TypeId)
    requires pg.Valid() && pg.Has(t) && Inv(pg, st, open) && Above(pg, open, t)
    ensures var r := GetAliasSet(pg, st, t); Achieved(pg, st, open, t, r, Resolve(pg, r.0.memo, t))
    decreases pg.rank[t], 2, 0
  {
    assert pg.Ranked(t);
    var ty := pg.types[t];
    if !pg.Typeless(t) {
      if ty.structural {
        if ty.hook != Default {
          HookKeeps(pg, st, open, t);
        } else if !ty.shape.CanonicalUsed() {
          SettledKeeps(pg, st, open, t);
        }
      } else {
        assert pg.CanonicalOk(t);
        SettledKeeps(pg, st, open, ty.canonical);
      }
    }
  }

  lemma {:induction false} HookKeeps(pg: Program, st: State, open: set<TypeId>, t: TypeId)
    requires pg.Valid() && pg.Has(t) && Inv(pg, st, open) && Above(pg, open, t)
    ensures var r := FromHook(pg, st, t); Achieved(pg, st, open, t, r, ResolveHook(pg, r.0.memo, t))
    decreases pg.rank[t], 0, 0
  {
    assert pg.Ranked(t);
    if pg.types[t].hook.Like? {
      GetKeeps(pg, st, open, pg.types[t].hook.ty);
    }
  }

  lemma {:induction false} SettledKeeps(pg: Program, st: State, open: set<TypeId>, t: TypeId)
    requires pg.Valid() && pg.Has(t) && Inv(pg, st, open) && Above(pg, open, t)
    ensures var r := GetSettled(pg, st, t); Achieved(pg, st, open, t, r, ResolveSettled(pg, r.0.memo, t))
    decreases pg.rank[t], 1, 0
  {
    assert pg.Ranked(t);
    var ty := pg.types[t];
    if t in st.memo {
      assert StoredOk(pg, st, t);
    } else if !ty.complete {
      IncompleteKeeps(pg, st, open, t);
    } else if ty.hook != Default {
      assert t !in st.memo;
      HookKeeps(pg, st, open, t);
      InvKeys(pg, FromHook(pg, st, t).0, open);
    } else {
      match ty.shape
      case FunctionType => StoreKeeps(pg, st, open, t, 0);
      case VectorOf(e) => ShareKeeps(pg, st, open, t, e);
      case ArrayOf(e, nonaliased) =>
        if !nonaliased || ty.structural { ShareKeeps(pg, st, open, t, e); } else { FreshKeeps(pg, st, open, t); }
      case Pointer(rep) => PointerKeeps(pg, st, open, t);
      case VoidPtr => PointerFreshKeeps(pg, st, open, t);
      case Scalar => FreshKeeps(pg, st, open, t);
      case ComplexOf(e) => ComplexKeeps(pg, st, open, t);
      case RecordOf(fields) => if pg.Typeless(t) { FreshKeeps(pg, st, open, t); } else { RecordOfKeeps(pg, st, open, t); }
    }
  }

  lemma {:induction false} IncompleteKeeps(pg: Program, st: State, open: set<TypeId>, t: TypeId)
    requires pg.Valid() && pg.Has(t) && Inv(pg, st, open) && Above(pg, open, t) && t !in st.memo && !pg.types[t].complete
    ensures var r := GetSettled(pg, st, t); Achieved(pg, st, open, t, r, ResolveSettled(pg, r.0.memo, t))
    decreases pg.rank[t], 0, 0
  {
    assert pg.Ranked(t);
    if pg.types[t].shape.ArrayOf? {
      var e := pg.types[t].shape.elem;
      GetKeeps(pg, st, open, e);
      InvKeys(pg, GetAliasSet(pg, st, e).0, open);
    }
  }

  /** A vector or array takes the alias set of its element. */
  lemma {:induction false} ShareKeeps(pg: Program, st: State, open: set<TypeId>, t: TypeId, e: TypeId)
    requires pg.Valid() && pg.Has(t) && pg.Memoizable(t) && Inv(pg, st, open) && Above(pg, open, t) && t !in st.memo
    requires pg.Below(e, t) && SharedElement(pg, t) == Some(e)
    ensures var r := Share(GetAliasSet(pg, st, e), t); Achieved(pg, st, open, t, r, Some(r.1)) && t in r.0.memo && r.0.memo[t] == r.1
    decreases pg.rank[t], 0, 0
  {
    GetKeeps(pg, st, open, e);
    var (st', s) := GetAliasSet(pg, st, e);
    InvKeys(pg, st', open);
    forall x | x in st'.memo && pg.Has(x) && pg.Owner(x) && st'.memo[x] == s
      ensures pg.rank[x] <= pg.rank[t]
    {
      assert StoredOk(pg, st', x);
      ResolveRank(pg, st', e, x);
    }
    StoreKeeps(pg, st', open, t, s);
    GrowsTrans(st, st', st'.(memo := st'.memo[t := s]));
  }

  /** A pointer type takes a new alias set, which is marked. */
  lemma PointerFreshKeeps(pg: Program, st: State, open: set<TypeId>, t: TypeId)
    requires pg.Valid() && pg.Has(t) && pg.Memoizable(t) && Inv(pg, st, open) && t !in st.memo && pg.types[t].shape.IsPointer()
    ensures var (st', s) := Fresh(st, t);
            && Inv(pg, MarkSet(st', s), open) && Grows(st, MarkSet(st', s)) && 0 < s < |st'.sets|
            && EntryOf(MarkSet(st', s).sets, s).isPointer
            && forall x :: x in st.memo ==> st.memo[x] != s
  {
    var (sets, s) := NewSet(st.sets);
    FreshTable(st, t);
    FreshUnused(pg, st, open, sets, s);
    MarkTable(sets, s);
    var sets' := MarkPointer(sets, s);
    forall x, y | x in open && x in st.memo ensures st.memo[x] !in EntryOf(sets', y).children {
      assert EntryOf(sets', y).children == EntryOf(sets, y).children == EntryOf(st.sets, y).children;
    }
    assert Grows(st, st.(sets := sets')) by {
      forall x ensures EntryOf(st.sets, x).children <= EntryOf(sets', x).children
                       && (EntryOf(st.sets, x).isPointer ==> EntryOf(sets', x).isPointer)
                       && (EntryOf(st.sets, x).hasZeroChild ==> EntryOf(sets', x).hasZeroChild) {
        assert EntryOf(sets, x) == EntryOf(st.sets, x);
      }
    }
    TableKeeps(pg, st, open, sets');
    StoreKeeps(pg, st.(sets := sets'), open, t, s);
  }

  lemma {:induction false} PointerKeeps(pg: Program, st: State, open: set<TypeId>, t: TypeId)
    requires pg.Valid() && pg.Has(t) && pg.Memoizable(t) && Inv(pg, st, open) && Above(pg, open, t) && t !in st.memo
    requires pg.types[t].shape.Pointer?
    ensures var r := GetPointer(pg, st, t); Achieved(pg, st, open, t, r, Some(r.1)) && t in r.0.memo && r.0.memo[t] == r.1
    decreases pg.rank[t], 0, 1
  {
    hide Inv, Grows, EntryOf, Resolve;
    assert pg.Ranked(t);
    var rep := pg.types[t].shape.rep;
    if rep == None {
      GetKeeps(pg, st, open, pg.voidPtr);
      var (st', s) := GetAliasSet(pg, st, pg.voidPtr);
      VoidPtrStored(pg, st', open, s);
      StorePointer(pg, st', open, t, pg.voidPtr, s);
      GrowsTrans(st, st', GetPointer(pg, st, t).0);
    } else if rep.value in st.memo {
      StorePointer(pg, st, open, t, rep.value, st.memo[rep.value]);
    } else {
      PointerFreshKeeps(pg, st, open, rep.value);
      var (st', s) := Fresh(st, rep.value);
      var marked := MarkSet(st', s);
      if t == rep.value {
        assert st'.(memo := st'.memo[t := s]) == st';
      } else {
        StorePointer(pg, marked, open, t, rep.value, s);
        GrowsTrans(st, marked, GetPointer(pg, st, t).0);
      }
    }
  }

  /** The alias set found for the universal pointer is stored with it. */
  lemma VoidPtrStored(pg: Program, st: State, open: set<TypeId>, s: nat)
    requires pg.Valid() && Inv(pg, st, open) && Resolve(pg, st.memo, pg.voidPtr) == Some(s)
    ensures pg.voidPtr in st.memo && st.memo[pg.voidPtr] == s
  {
    assert pg.Ranked(pg.voidPtr);
  }

  /** A pointer type takes the alias set stored with another pointer type. */
  lemma StorePointer(pg: Program, st: State, open: set<TypeId>, t: TypeId, p: TypeId, s: nat)
    requires pg.Valid() && Inv(pg, st, open) && pg.Has(t) && pg.Memoizable(t) && t !in st.memo && pg.types[t].shape.IsPointer()
    requires p in st.memo && pg.Has(p) && pg.types[p].shape.IsPointer() && st.memo[p] == s && pg.rank[p] <= pg.rank[t]
    ensures var st' := MarkSet(st.(memo := st.memo[t := s]), s);
            && st' == st.(memo := st.memo[t := s])
            && Inv(pg, st', open) && Grows(st, st') && 0 < s < |st'.sets|
  {
    assert StoredOk(pg, st, p);
    assert MarkPointer(st.sets, s) == st.sets;
    StoreKeeps(pg, st, open, t, s);
  }

  /** A type all of whose components are recorded is no longer open. */
  lemma CloseKeeps(pg: Program, st: State, open: set<TypeId>, t: TypeId)
    requires pg.Valid() && Inv(pg, st, open + {t}) && t in st.memo && pg.Has(t) && ComponentsRecorded(pg, st, t)
    ensures Inv(pg, st, open)
  {
  }

  /** The alias set found for a component is not that of a type that is still open. */
  lemma ComponentNotOpen(pg: Program, st: State, open: set<TypeId>, g: TypeId, v: nat)
    requires pg.Valid() && Inv(pg, st, open) && pg.Has(g) && Above(pg, open, g) && Resolve(pg, st.memo, g) == Some(v)
    ensures forall x :: x in open && x in st.memo ==> st.memo[x] != v
  {
    InvKeys(pg, st, open);
    forall x | x in open && x in st.memo ensures st.memo[x] != v {
      assert StoredOk(pg, st, x);
      if st.memo[x] == v { ResolveRank(pg, st, g, x); }
    }
  }

  /** Looking up component `g` of the open type `t` and recording what was found. */
  lemma {:induction false} ComponentKeeps(pg: Program, st: State, open: set<TypeId>, t: TypeId, g: TypeId)
    requires pg.Valid() && pg.Has(t) && Inv(pg, st, open) && t in open && t in st.memo && pg.Below(g, t)
    requires forall o :: o in open ==> pg.Has(o) && pg.rank[o] >= pg.rank[t]
    ensures var (st', v) := GetAliasSet(pg, st, g);
            var st'' := RecordIn(st', st.memo[t], v);
            && Inv(pg, st'', open) && Grows(st, st'') && Resolve(pg, st''.memo, g) == Some(v)
            && Covered(st''.sets, st.memo[t], v)
            && forall k :: k in st''.memo && k !in st.memo ==> pg.Has(k) && pg.rank[k] < pg.rank[t]
    decreases pg.rank[g], 3, 0
  {
    GetKeeps(pg, st, open, g);
    var (st', v) := GetAliasSet(pg, st, g);
    ComponentNotOpen(pg, st', open, g, v);
    RecordKeeps(pg, st', open, t, v);
    GrowsTrans(st, st', RecordIn(st', st.memo[t], v));
  }

  lemma {:induction false} ComplexKeeps(pg: Program, st: State, open: set<TypeId>, t: TypeId)
    requires pg.Valid() && pg.Has(t) && pg.Memoizable(t) && Inv(pg, st, open) && Above(pg, open, t) && t !in st.memo
    requires pg.types[t].shape.ComplexOf?
    ensures var r := GetSettled(pg, st, t); Achieved(pg, st, open, t, r, Some(r.1)) && t in r.0.memo && r.0.memo[t] == r.1
    decreases pg.rank[t], 0, 1
  {
    assert pg.Ranked(t);
    hide Inv, Grows, EntryOf, Resolve, Covered;
    FreshKeeps(pg, st, open, t);
    var (st', s) := Fresh(st, t);
    var e := pg.types[t].shape.elem;
    ComponentKeeps(pg, st', open + {t}, t, e);
    var (st'', v) := GetAliasSet(pg, st', e);
    var end := RecordIn(st'', s, v);
    GrowsTrans(st, st', end);
    ElementRecorded(pg, end, t, v);
    CloseKeeps(pg, end, open, t);
    NewBelow(pg, st, st', end, t);
  }

  /** The one component of a complex type is recorded. */
  lemma ElementRecorded(pg: Program, st: State, t: TypeId, v: nat)
    requires pg.Valid() && pg.Has(t) && t in st.memo && pg.types[t].shape.ComplexOf? && pg.Has(pg.types[t].shape.elem)
    requires Resolve(pg, st.memo, pg.types[t].shape.elem) == Some(v) && Covered(st.sets, st.memo[t], v)
    ensures ComponentsRecorded(pg, st, t)
  {
    hide Resolve, Covered;
  }

  /** What is stored beyond `st` is `t` itself or has a lower rank. */
  lemma NewBelow(pg: Program, st: State, st': State, end: State, t: TypeId)
    requires pg.Has(t) && |pg.rank| == |pg.types| && (forall k :: k in st'.memo && k !in st.memo ==> k == t)
    requires forall k :: k in end.memo && k !in st'.memo ==> pg.Has(k) && pg.rank[k] < pg.rank[t]
    ensures forall k :: k in end.memo && k !in st.memo ==> pg.Has(k) && pg.rank[k] <= pg.rank[t]
  {
  }

  lemma {:induction false} RecordOfKeeps(pg: Program, st: State, open: set<TypeId>, t: TypeId)
    requires pg.Valid() && pg.Has(t) && pg.Memoizable(t) && Inv(pg, st, open) && Above(pg, open, t) && t !in st.memo
    requires pg.types[t].shape.RecordOf? && !pg.Typeless(t)
    ensures var r := GetSettled(pg, st, t); Achieved(pg, st, open, t, r, Some(r.1)) && t in r.0.memo && r.0.memo[t] == r.1
    decreases pg.rank[t], 0, |pg.types[t].shape.fields| + 1
  {
    FreshKeeps(pg, st, open, t);
    var (st', s) := Fresh(st, t);
    var n := |pg.types[t].shape.fields|;
    FieldsKeep(pg, st', open + {t}, t, n);
    var end := RecordFields(pg, st', t, s, n);
    GrowsTrans(st, st', end);
    assert ComponentsRecorded(pg, end, t) by { FieldsRecorded(pg, end, t, n); }
    CloseKeeps(pg, end, open, t);
  }

  /** The first `n` fields of `t` are covered. */
  ghost predicate FieldsCovered(pg: Program, st: State, t: TypeId, n: nat)
    requires pg.Valid() && pg.Has(t) && t in st.memo && pg.types[t].shape.RecordOf? && n <= |pg.types[t].shape.fields|
  {
    var fs := pg.types[t].shape.fields;
    forall i :: 0 <= i < n && fs[i].addressable && pg.Has(fs[i].ty) ==>
      var v := Resolve(pg, st.memo, RecordedType(pg, fs[i].ty));
      v.Some? && Covered(st.sets, st.memo[t], v.value)
  }

  lemma FieldsRecorded(pg: Program, st: State, t: TypeId, n: nat)
    requires pg.Valid() && pg.Has(t) && t in st.memo && pg.types[t].shape.RecordOf? && n == |pg.types[t].shape.fields|
    requires FieldsCovered(pg, st, t, n)
    ensures ComponentsRecorded(pg, st, t)
  {
  }

  /** What recording fields of the open type `t` achieved. */
  ghost predicate FieldsDone(pg: Program, st: State, st': State, open: set<TypeId>, t: TypeId, n: nat)
    requires pg.Valid() && pg.Has(t) && pg.types[t].shape.RecordOf? && n <= |pg.types[t].shape.fields|
  {
    && Inv(pg, st', open) && Grows(st, st') && t in st'.memo && FieldsCovered(pg, st', t, n)
    && forall k :: k in st'.memo && k !in st.memo ==> pg.Has(k) && pg.rank[k] < pg.rank[t]
  }

  lemma {:induction false} FieldsKeep(pg: Program, st: State, open: set<TypeId>, t: TypeId, n: nat)
    requires pg.Valid() && pg.Has(t) && Inv(pg, st, open) && t in open && t in st.memo
    requires pg.types[t].shape.RecordOf? && n <= |pg.types[t].shape.fields|
    requires forall o :: o in open ==> pg.Has(o) && pg.rank[o] >= pg.rank[t]
    ensures FieldsDone(pg, st, RecordFields(pg, st, t, st.memo[t], n), open, t, n)
    decreases pg.rank[t], 0, n
  {
    hide Inv, Covered, Resolve, FieldsCovered;
    if n == 0 {
      NoField(pg, st, t);
    } else {
      assert pg.Ranked(t);
      FieldsKeep(pg, st, open, t, n - 1);
      var st' := RecordFields(pg, st, t, st.memo[t], n - 1);
      var f := pg.types[t].shape.fields[n - 1];
      if f.addressable {
        StrippedRank(pg, f.ty);
        ComponentKeeps(pg, st', open, t, RecordedType(pg, f.ty));
        OneMoreField(pg, st, st', RecordFields(pg, st, t, st.memo[t], n), open, t, n - 1);
      } else {
        SkippedField(pg, st', t, n - 1);
      }
    }
  }

  lemma NoField(pg: Program, st: State, t: TypeId)
    requires pg.Valid() && pg.Has(t) && t in st.memo && pg.types[t].shape.RecordOf?
    ensures FieldsCovered(pg, st, t, 0)
  {
  }

  lemma SkippedField(pg: Program, st: State, t: TypeId, n: nat)
    requires pg.Valid() && pg.Has(t) && t in st.memo && pg.types[t].shape.RecordOf? && n < |pg.types[t].shape.fields|
    requires FieldsCovered(pg, st, t, n) && !pg.types[t].shape.fields[n].addressable
    ensures FieldsCovered(pg, st, t, n + 1)
  {
    hide Resolve, Covered;
  }

  lemma OneMoreField(pg: Program, st: State, mid: State, end: State, open: set<TypeId>, t: TypeId, n: nat)
    requires pg.Valid() && pg.Has(t) && t in st.memo && pg.types[t].shape.RecordOf? && n < |pg.types[t].shape.fields|
    requires FieldsDone(pg, st, mid, open, t, n) && pg.Has(pg.types[t].shape.fields[n].ty)
    requires Inv(pg, end, open) && Grows(mid, end)
    requires var v := Resolve(pg, end.memo, RecordedType(pg, pg.types[t].shape.fields[n].ty));
             v.Some? && Covered(end.sets, mid.memo[t], v.value)
    requires forall k :: k in end.memo && k !in mid.memo ==> pg.Has(k) && pg.rank[k] < pg.rank[t]
    ensures FieldsDone(pg, st, end, open, t, n + 1)
  {
    hide Inv, Resolve, Covered, FieldsCovered, RecordedType;
    GrowsTrans(st, mid, end);
    InvKeys(pg, end, open);
    FieldsStayCovered(pg, mid, end, t, n);
    AddedField(pg, end, t, n);
  }

  lemma AddedField(pg: Program, st: State, t: TypeId, n: nat)
    requires pg.Valid() && pg.Has(t) && t in st.memo && pg.types[t].shape.RecordOf? && n < |pg.types[t].shape.fields|
    requires FieldsCovered(pg, st, t, n) && pg.Has(pg.types[t].shape.fields[n].ty)
    requires var v := Resolve(pg, st.memo, RecordedType(pg, pg.types[t].shape.fields[n].ty));
             v.Some? && Covered(st.sets, st.memo[t], v.value)
    ensures FieldsCovered(pg, st, t, n + 1)
  {
    hide Resolve, Covered, RecordedType;
  }

  lemma FieldsStayCovered(pg: Program, a: State, b: State, t: TypeId, n: nat)
    requires pg.Valid() && pg.Has(t) && t in a.memo && pg.types[t].shape.RecordOf? && n <= |pg.types[t].shape.fields|
    requires FieldsCovered(pg, a, t, n) && Grows(a, b) && KeysOk(pg, b.memo)
    ensures FieldsCovered(pg, b, t, n)
  {
    var fs := pg.types[t].shape.fields;
    forall i | 0 <= i < n && fs[i].addressable && pg.Has(fs[i].ty)
      ensures var v := Resolve(pg, b.memo, RecordedType(pg, fs[i].ty));
              v.Some? && Covered(b.sets, b.memo[t], v.value)
    {
      ResolveStable(pg, a.memo, b.memo, RecordedType(pg, fs[i].ty));
    }
  }
}
