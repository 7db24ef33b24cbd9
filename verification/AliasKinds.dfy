/** What alias set a type of each kind has after any lookups, and which kinds have one of their own. */
module AliasKinds {
  import opened Options
  import opened AliasSets
  import opened AliasTypes
  import opened AliasClasses
  import opened AliasNesting
  import opened AliasHistory

  /** A complete type that the language has no rule for, of a kind that has an alias set of its own. */
  predicate OwnKind(pg: Program, u: TypeId)
    requires pg.Has(u)
  {
    && pg.types[u].complete && pg.types[u].hook == Default
    && match pg.types[u].shape
       case Scalar => true
       case VoidPtr => true
       case ComplexOf(_) => true
       case RecordOf(_) => true
       case ArrayOf(_, nonaliased) => nonaliased && !pg.types[u].structural
       case _ => false
  }

  /** `s` is the alias set of `u` and of no other type with one of its own. */
  ghost predicate Own(pg: Program, st: State, u: TypeId, s: nat) {
    && s != 0 && u in st.memo && st.memo[u] == s
    && forall v :: v in st.memo && v != u && pg.Has(v) && OwnKind(pg, v) ==> st.memo[v] != s
  }

  /** The alias set of a type by its kind: `u` is its canonical type, or the type itself where it is compared structurally. */
  ghost predicate ByKind(pg: Program, st: State, u: TypeId, s: nat)
    requires pg.Valid() && pg.Has(u)
  {
    assert pg.Ranked(u);
    match pg.types[u].shape
    case FunctionType => s == 0
    case VectorOf(e) => Resolve(pg, st.memo, e) == Some(s)
    case ArrayOf(e, nonaliased) =>
      if nonaliased && !pg.types[u].structural then Own(pg, st, u, s) else Resolve(pg, st.memo, e) == Some(s)
    case Pointer(rep) =>
      if rep == None then Resolve(pg, st.memo, pg.voidPtr) == Some(s)
      else s != 0 && rep.value in st.memo && st.memo[rep.value] == s
    case _ => Own(pg, st, u, s)
  }

  lemma OwnClass(pg: Program, u: TypeId)
    requires pg.Valid() && pg.Has(u) && OwnKind(pg, u)
    ensures ClassOfSettled(pg, u) == Some(u)
  {
  }

  lemma StoredByKind(pg: Program, st: State, u: TypeId)
    requires pg.Valid() && Rebuilt(pg) && Inv(pg, st, {}) && ClassesOk(pg, st.memo) && u in st.memo && pg.Has(u)
    ensures ByKind(pg, st, u, st.memo[u])
  {
    hide ClassOfSettled, Rebuilt, TableOk, OwnersOk, ComponentsRecorded, OpenOk;
    assert pg.Ranked(u) && StoredOk(pg, st, u) && Shares(pg, st.memo, u);
    assert ClassStored(pg, st.memo, ClassOfSettled(pg, u), st.memo[u]);
    if OwnKind(pg, u) {
      OwnClass(pg, u);
      forall v | v in st.memo && v != u && pg.Has(v) && OwnKind(pg, v) ensures st.memo[v] != st.memo[u] {
        OwnClass(pg, v);
      }
    }
    NamedClass(pg, u);
    if pg.voidPtr in st.memo { VoidResolves(pg, st.memo); }
  }

  lemma VoidResolves(pg: Program, memo: map<TypeId, nat>)
    requires pg.Valid() && pg.voidPtr in memo
    ensures Resolve(pg, memo, pg.voidPtr) == Some(memo[pg.voidPtr])
  {
  }

  lemma NamedClass(pg: Program, u: TypeId)
    requires pg.Valid() && pg.Has(u) && pg.Memoizable(u)
    ensures pg.types[u].shape.FunctionType? ==> ClassOfSettled(pg, u) == None
    ensures pg.types[u].shape.Pointer? ==>
              ClassOfSettled(pg, u) == if pg.types[u].shape.rep == None then Some(pg.voidPtr) else pg.types[u].shape.rep
  {
  }

  /** After any lookups that include `t`: raw storage, types compared structurally that are not pointers, arrays or vectors, and
      incomplete types other than arrays have alias set 0; arrays of unknown size and types the language likens to another have
      the other's; and a complete type has the one of its kind. */
  lemma SetByKind(pg: Program, ts: seq<TypeId>, t: TypeId)
    requires pg.Valid() && Rebuilt(pg) && (forall i :: 0 <= i < |ts| ==> pg.Has(ts[i])) && t in ts
    ensures var st := GetAll(pg, START, ts);
            Resolve(pg, st.memo, t).Some? && LookedUp(pg, st, t, Resolve(pg, st.memo, t).value)
  {
    hide Inv, Closed, ClassesOk, Resolve, GetAll, Rebuilt, LookedUp;
    var st := GetAll(pg, START, ts);
    LookupsExplained(pg, ts);
    StartOk(pg);
    LookupsKeep(pg, START, ts);
    ResolvedByKind(pg, st, t);
  }

  ghost predicate LookedUp(pg: Program, st: State, t: TypeId, s: nat)
    requires pg.Valid() && pg.Has(t)
  {
    var ty, u := pg.types[t], Settled(pg, t);
    assert pg.Ranked(t) && pg.Ranked(u);
    if ty.shape.IsAggregate() && ty.typeless then s == 0
    else if ty.structural && ty.hook != Default then ByHook(pg, st, t, s)
    else if ty.structural && !ty.shape.IsPointer() && !ty.shape.ArrayOf? && !ty.shape.VectorOf? then s == 0
    else if !pg.types[u].complete then
      if pg.types[u].shape.ArrayOf? then Resolve(pg, st.memo, pg.types[u].shape.elem) == Some(s) else s == 0
    else if pg.types[u].hook != Default then ByHook(pg, st, u, s)
    else ByKind(pg, st, u, s)
  }

  /** What the language says. */
  ghost predicate ByHook(pg: Program, st: State, t: TypeId, s: nat)
    requires pg.Valid() && pg.Has(t)
  {
    assert pg.Ranked(t);
    if pg.types[t].hook.Like? then Resolve(pg, st.memo, pg.types[t].hook.ty) == Some(s) else s == 0
  }

  lemma SettledByKind(pg: Program, st: State, u: TypeId, s: nat)
    requires pg.Valid() && Rebuilt(pg) && Inv(pg, st, {}) && ClassesOk(pg, st.memo) && pg.Has(u)
    requires ResolveSettled(pg, st.memo, u) == Some(s)
    ensures pg.Ranked(u)
    ensures if !pg.types[u].complete then
              if pg.types[u].shape.ArrayOf? then Resolve(pg, st.memo, pg.types[u].shape.elem) == Some(s) else s == 0
            else if pg.types[u].hook != Default then ByHook(pg, st, u, s)
            else ByKind(pg, st, u, s)
  {
    hide Inv, ClassesOk, Rebuilt, ByKind;
    assert pg.Ranked(u);
    InvKeys(pg, st, {});
    if u in st.memo {
      StoredByKind(pg, st, u);
    } else if pg.types[u].complete {
      assert ResolveHook(pg, st.memo, u) == Some(s);
    }
  }

  lemma ResolvedByKind(pg: Program, st: State, t: TypeId)
    requires pg.Valid() && Rebuilt(pg) && Inv(pg, st, {}) && ClassesOk(pg, st.memo) && pg.Has(t) && Resolve(pg, st.memo, t).Some?
    ensures LookedUp(pg, st, t, Resolve(pg, st.memo, t).value)
  {
    hide Inv, ClassesOk, Rebuilt, ByKind;
    var u := Settled(pg, t);
    assert pg.Ranked(t) && pg.Ranked(u);
    InvKeys(pg, st, {});
    var ty, s := pg.types[t], Resolve(pg, st.memo, t).value;
    if pg.Typeless(t) {
    } else if ty.structural && ty.hook != Default {
      assert ResolveHook(pg, st.memo, t) == Some(s);
      assert ByHook(pg, st, t, s);
    } else if ty.structural && ty.shape.CanonicalUsed() {
    } else {
      assert ResolveSettled(pg, st.memo, u) == Some(s);
      SettledByKind(pg, st, u, s);
    }
  }
}
