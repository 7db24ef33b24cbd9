/** Which types share an alias set, read off the types alone: each class of types has a representative, or aliases everything. */
module AliasClasses {
  import opened Options
  import opened AliasTypes

  /** Rebuilding a rebuilt pointer type gives the same type. */
  predicate Rebuilt(pg: Program) {
    forall t :: 0 <= t < |pg.types| && pg.types[t].shape.Pointer? && pg.types[t].shape.rep.Some? ==>
      var r := pg.types[t].shape.rep.value;
      pg.Has(r) && pg.types[r].shape == pg.types[t].shape
  }

  /** The type with whose alias set `t` goes, or none if that is 0. */
  function Class(pg: Program, t: TypeId): Option<TypeId>
    requires pg.Valid() && pg.Has(t)
    decreases pg.rank[t], 2
  {
    assert pg.Ranked(t);
    var ty := pg.types[t];
    if pg.Typeless(t) then None
    else if ty.structural then
      if ty.hook != Default then ClassOfHook(pg, t)
      else if ty.shape.CanonicalUsed() then None
      else ClassOfSettled(pg, t)
    else
      assert pg.CanonicalOk(t);
      ClassOfSettled(pg, ty.canonical)
  }

  function ClassOfHook(pg: Program, t: TypeId): Option<TypeId>
    requires pg.Valid() && pg.Has(t)
    decreases pg.rank[t], 0
  {
    assert pg.Ranked(t);
    if pg.types[t].hook.Like? then Class(pg, pg.types[t].hook.ty) else None
  }

  function ClassOfSettled(pg: Program, t: TypeId): Option<TypeId>
    requires pg.Valid() && pg.Has(t)
    decreases pg.rank[t], 1
  {
    assert pg.Ranked(t);
    var ty := pg.types[t];
    if !ty.complete then
      if ty.shape.ArrayOf? then Class(pg, ty.shape.elem) else None
    else if ty.hook != Default then ClassOfHook(pg, t)
    else if ty.shape.FunctionType? then None
    else if SharedElement(pg, t).Some? then Class(pg, SharedElement(pg, t).value)
    else if ty.shape.Pointer? then (if ty.shape.rep == None then Some(pg.voidPtr) else ty.shape.rep)
    else Some(t)
  }

  /** What is stored with a type is stored with the representative of its class. */
  ghost predicate ClassStored(pg: Program, memo: map<TypeId, nat>, c: Option<TypeId>, s: nat) {
    match c
    case None => s == 0
    case Some(r) => s != 0 && r in memo && memo[r] == s
  }

  /** Types with stored alias sets have the same one exactly if they are of one class. */
  ghost predicate ClassesOk(pg: Program, memo: map<TypeId, nat>)
    requires pg.Valid()
  {
    && (forall t :: t in memo ==> pg.Has(t) && ClassStored(pg, memo, ClassOfSettled(pg, t), memo[t]))
    && (forall t, u :: t in memo && u in memo && pg.Has(t) && pg.Has(u) && memo[t] == memo[u] ==>
          ClassOfSettled(pg, t) == ClassOfSettled(pg, u))
  }

  /** The alias set of any type, stored or not, is that of its class. */
  lemma {:induction false} ResolveClass(pg: Program, memo: map<TypeId, nat>, t: TypeId)
    requires pg.Valid() && pg.Has(t) && ClassesOk(pg, memo) && Resolve(pg, memo, t).Some?
    ensures ClassStored(pg, memo, Class(pg, t), Resolve(pg, memo, t).value)
    decreases pg.rank[t], 2
  {
    hide ClassesOk, ClassStored;
    assert pg.Ranked(t);
    var ty := pg.types[t];
    if pg.Typeless(t) || (ty.structural && ty.hook == Default && ty.shape.CanonicalUsed()) {
      NoClass(pg, memo);
    } else if ty.structural {
      if ty.hook != Default { ResolveHookClass(pg, memo, t); } else { ResolveSettledClass(pg, memo, t); }
    } else {
      assert pg.CanonicalOk(t);
      ResolveSettledClass(pg, memo, ty.canonical);
    }
  }

  lemma NoClass(pg: Program, memo: map<TypeId, nat>)
    ensures ClassStored(pg, memo, None, 0)
  {
  }

  lemma {:induction false} ResolveHookClass(pg: Program, memo: map<TypeId, nat>, t: TypeId)
    requires pg.Valid() && pg.Has(t) && ClassesOk(pg, memo) && ResolveHook(pg, memo, t).Some?
    ensures ClassStored(pg, memo, ClassOfHook(pg, t), ResolveHook(pg, memo, t).value)
    decreases pg.rank[t], 0
  {
    hide ClassesOk, ClassStored;
    assert pg.Ranked(t);
    if pg.types[t].hook.Like? { ResolveClass(pg, memo, pg.types[t].hook.ty); } else { NoClass(pg, memo); }
  }

  lemma {:induction false} ResolveSettledClass(pg: Program, memo: map<TypeId, nat>, t: TypeId)
    requires pg.Valid() && pg.Has(t) && ClassesOk(pg, memo) && ResolveSettled(pg, memo, t).Some?
    ensures ClassStored(pg, memo, ClassOfSettled(pg, t), ResolveSettled(pg, memo, t).value)
    decreases pg.rank[t], 1
  {
    hide ClassStored;
    assert pg.Ranked(t);
    var ty := pg.types[t];
    if t in memo {
    } else if !ty.complete {
      if ty.shape.ArrayOf? { ResolveClass(pg, memo, ty.shape.elem); } else { NoClass(pg, memo); }
    } else {
      ResolveHookClass(pg, memo, t);
    }
  }

  /** Storing with `t` what is stored for its class. */
  lemma StoreKeepsClasses(pg: Program, memo: map<TypeId, nat>, t: TypeId, s: nat)
    requires pg.Valid() && ClassesOk(pg, memo) && pg.Has(t) && t !in memo
    requires ClassStored(pg, memo, ClassOfSettled(pg, t), s)
    requires ClassOfSettled(pg, t).Some? ==> IsRepresentative(pg, ClassOfSettled(pg, t).value)
    ensures ClassesOk(pg, memo[t := s])
  {
    hide ClassOfSettled;
    var n := memo[t := s];
    forall u | u in n && pg.Has(u) && n[u] == s ensures ClassOfSettled(pg, u) == ClassOfSettled(pg, t) {
      if u != t { assert ClassStored(pg, memo, ClassOfSettled(pg, u), memo[u]); }
    }
    forall u | u in n ensures pg.Has(u) && ClassStored(pg, n, ClassOfSettled(pg, u), n[u]) {
      if u != t { assert ClassStored(pg, memo, ClassOfSettled(pg, u), memo[u]); }
    }
  }

  /** `r` is of its own class. */
  predicate IsRepresentative(pg: Program, r: TypeId)
    requires pg.Valid()
  {
    pg.Has(r) && ClassOfSettled(pg, r) == Some(r)
  }

  /** Storing a new alias set with a representative. */
  lemma FreshKeepsClasses(pg: Program, memo: map<TypeId, nat>, t: TypeId, s: nat)
    requires pg.Valid() && ClassesOk(pg, memo) && IsRepresentative(pg, t) && t !in memo
    requires s != 0 && forall u :: u in memo ==> memo[u] != s
    ensures ClassesOk(pg, memo[t := s])
  {
    hide ClassOfSettled;
    var n := memo[t := s];
    forall u | u in n ensures pg.Has(u) && ClassStored(pg, n, ClassOfSettled(pg, u), n[u]) {
      if u != t { assert ClassStored(pg, memo, ClassOfSettled(pg, u), memo[u]); }
    }
  }

  /** Every class has its representative in it. */
  lemma {:induction false} ClassIsRepresentative(pg: Program, t: TypeId)
    requires pg.Valid() && Rebuilt(pg) && pg.Has(t) && Class(pg, t).Some?
    ensures IsRepresentative(pg, Class(pg, t).value) && pg.Memoizable(Class(pg, t).value)
    decreases pg.rank[t], 2
  {
    assert pg.Ranked(t);
    var ty := pg.types[t];
    if ty.structural {
      if ty.hook != Default { HookIsRepresentative(pg, t); } else { SettledIsRepresentative(pg, t); }
    } else {
      assert pg.CanonicalOk(t);
      SettledIsRepresentative(pg, ty.canonical);
    }
  }

  lemma {:induction false} HookIsRepresentative(pg: Program, t: TypeId)
    requires pg.Valid() && Rebuilt(pg) && pg.Has(t) && ClassOfHook(pg, t).Some?
    ensures IsRepresentative(pg, ClassOfHook(pg, t).value) && pg.Memoizable(ClassOfHook(pg, t).value)
    decreases pg.rank[t], 0
  {
    assert pg.Ranked(t);
    ClassIsRepresentative(pg, pg.types[t].hook.ty);
  }

  lemma {:induction false} SettledIsRepresentative(pg: Program, t: TypeId)
    requires pg.Valid() && Rebuilt(pg) && pg.Has(t) && ClassOfSettled(pg, t).Some?
    ensures IsRepresentative(pg, ClassOfSettled(pg, t).value) && pg.Memoizable(ClassOfSettled(pg, t).value)
    decreases pg.rank[t], 1
  {
    assert pg.Ranked(t);
    var ty := pg.types[t];
    if !ty.complete {
      ClassIsRepresentative(pg, ty.shape.elem);
    } else if ty.hook != Default {
      HookIsRepresentative(pg, t);
    } else if SharedElement(pg, t).Some? {
      ClassIsRepresentative(pg, SharedElement(pg, t).value);
    } else if ty.shape.Pointer? && ty.shape.rep.Some? {
      assert pg.types[ty.shape.rep.value].shape == ty.shape;
    }
  }
}
