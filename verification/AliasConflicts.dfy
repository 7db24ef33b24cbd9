/** When two types conflict, read off the types alone: the order in which types are given alias sets does not matter. */
module AliasConflicts {
  import opened Options
  import opened AliasSets
  import opened AliasTypes
  import opened AliasClasses
  import opened AliasNesting
  import opened AliasHistory

  // ----- The graph of classes -----

  /** Type `t` records a component of class `r`. */
  ghost predicate ClassPart(pg: Program, t: TypeId, r: TypeId)
    requires pg.Valid()
  {
    && pg.Has(t) && pg.Owner(t) && pg.Memoizable(t)
    && exists g :: pg.Has(g) && Component(pg, t, g) && Class(pg, g) == Some(r)
  }

  ghost function ClassEdges(pg: Program): Edges
    requires pg.Valid()
  {
    set t, r | 0 <= t < |pg.types| && 0 <= r < |pg.types| && ClassPart(pg, t, r) :: (t, r)
  }

  /** The representatives that are pointer types. */
  ghost function PointerClasses(pg: Program): set<nat>
    requires pg.Valid()
  {
    set r | 0 <= r < |pg.types| && IsRepresentative(pg, r) && pg.types[r].shape.IsPointer()
  }

  lemma InClassEdges(pg: Program, t: TypeId, r: TypeId)
    requires pg.Valid() && Rebuilt(pg)
    ensures (t, r) in ClassEdges(pg) <==> ClassPart(pg, t, r)
  {
    hide Class, Component, Rebuilt;
    if ClassPart(pg, t, r) {
      var g :| pg.Has(g) && Component(pg, t, g) && Class(pg, g) == Some(r);
      ClassIsRepresentative(pg, g);
    }
  }

  // ----- Between classes and alias sets -----

  /** A representative with its alias set. */
  ghost predicate Stands(pg: Program, st: State, r: TypeId)
    requires pg.Valid()
  {
    IsRepresentative(pg, r) && r in st.memo
  }

  /** Different representatives have different alias sets. */
  lemma OneSetOneClass(pg: Program, st: State, a: TypeId, b: TypeId)
    requires pg.Valid() && ClassesOk(pg, st.memo) && Stands(pg, st, a) && Stands(pg, st, b)
    ensures st.memo[a] != 0 && (st.memo[a] == st.memo[b] <==> a == b)
  {
    assert ClassStored(pg, st.memo, ClassOfSettled(pg, a), st.memo[a]);
  }

  lemma ComponentStands(pg: Program, st: State, t: TypeId)
    requires pg.Valid() && Rebuilt(pg) && ClassesOk(pg, st.memo) && pg.Has(t) && Resolve(pg, st.memo, t).Some?
    ensures match Class(pg, t)
            case None => Resolve(pg, st.memo, t).value == 0
            case Some(r) => Stands(pg, st, r) && st.memo[r] == Resolve(pg, st.memo, t).value
  {
    ResolveClass(pg, st.memo, t);
    if Class(pg, t).Some? { ClassIsRepresentative(pg, t); }
  }

  /** From a component of a type that has its alias set to one of the alias sets. */
  lemma PartDown(pg: Program, st: State, t: TypeId, r: TypeId)
    requires pg.Valid() && Rebuilt(pg) && Inv(pg, st, {}) && ClassesOk(pg, st.memo) && t in st.memo && ClassPart(pg, t, r)
    ensures Stands(pg, st, r) && HasPart(pg, st.memo, st.memo[t], st.memo[r])
  {
    hide Class, Component, Resolve, ClassesOk, IsRepresentative, Rebuilt;
    var g :| pg.Has(g) && Component(pg, t, g) && Class(pg, g) == Some(r);
    assert ComponentsRecorded(pg, st, t);
    ComponentStands(pg, st, g);
    PartOf(pg, st.memo, t, g, st.memo[r]);
  }

  /** And back. */
  lemma PartUp(pg: Program, st: State, r: TypeId, b: nat) returns (u: TypeId)
    requires pg.Valid() && Rebuilt(pg) && Inv(pg, st, {}) && ClassesOk(pg, st.memo) && Stands(pg, st, r) && b != 0
    requires HasPart(pg, st.memo, st.memo[r], b)
    ensures Stands(pg, st, u) && st.memo[u] == b && ClassPart(pg, r, u)
  {
    hide Class, Component, Resolve, ClassStored, Rebuilt;
    var t, g :| && t in st.memo && pg.Has(t) && pg.Owner(t) && st.memo[t] == st.memo[r]
                && Component(pg, t, g) && pg.Has(g) && Resolve(pg, st.memo, g) == Some(b);
    assert StoredOk(pg, st, t);
    OwnerOfItself(pg, t);
    ComponentStands(pg, st, g);
    u := Class(pg, g).value;
  }

  lemma OwnerOfItself(pg: Program, t: TypeId)
    requires pg.Valid() && pg.Has(t) && pg.Owner(t) && pg.Memoizable(t)
    ensures IsRepresentative(pg, t)
  {
  }

  // ----- Paths -----

  lemma PathTail(g: Edges, p: seq<nat>)
    requires IsPath(g, p)
    ensures (p[0], p[1]) in g && (|p| > 2 ==> IsPath(g, p[1..]))
  {
    assert (p[0], p[0 + 1]) in g;
    if |p| > 2 {
      forall i | 0 <= i < |p[1..]| - 1 ensures (p[1..][i], p[1..][i + 1]) in g {
        assert (p[i + 1], p[i + 1 + 1]) in g;
      }
    }
  }

  lemma {:induction false} PathDown(pg: Program, st: State, p: seq<nat>)
    requires pg.Valid() && Rebuilt(pg) && Inv(pg, st, {}) && ClassesOk(pg, st.memo)
    requires IsPath(ClassEdges(pg), p) && p[0] in st.memo
    ensures Stands(pg, st, p[|p| - 1]) && Reaches(Parts(pg, st.memo), st.memo[p[0]], st.memo[p[|p| - 1]])
    decreases |p|
  {
    hide Inv, ClassesOk, ClassEdges, Parts, Reaches, IsPath, ClassPart, HasPart, IsRepresentative, Rebuilt;
    var k := Parts(pg, st.memo);
    PathShape(ClassEdges(pg), p);
    PathTail(ClassEdges(pg), p);
    InClassEdges(pg, p[0], p[1]);
    PartDown(pg, st, p[0], p[1]);
    InParts(pg, st.memo, st.memo[p[0]], st.memo[p[1]]);
    EdgeReaches(k, st.memo[p[0]], st.memo[p[1]]);
    if |p| == 2 {
    } else {
      PathDown(pg, st, p[1..]);
      ReachesTransitive(k, st.memo[p[0]], st.memo[p[1]], st.memo[p[|p| - 1]]);
    }
  }

  lemma PathShape(g: Edges, p: seq<nat>)
    requires IsPath(g, p)
    ensures |p| >= 2
  {
  }

  lemma {:induction false} PathUp(pg: Program, st: State, p: seq<nat>, r: TypeId) returns (u: TypeId)
    requires pg.Valid() && Rebuilt(pg) && Inv(pg, st, {}) && ClassesOk(pg, st.memo)
    requires IsPath(Parts(pg, st.memo), p) && Stands(pg, st, r) && st.memo[r] == p[0] && p[|p| - 1] != 0
    ensures Stands(pg, st, u) && st.memo[u] == p[|p| - 1] && Reaches(ClassEdges(pg), r, u)
    decreases |p|
  {
    hide Inv, ClassesOk, ClassEdges, Parts, Reaches, IsPath, ClassPart, HasPart, IsRepresentative, Rebuilt;
    var g := ClassEdges(pg);
    PathShape(Parts(pg, st.memo), p);
    PathTail(Parts(pg, st.memo), p);
    InParts(pg, st.memo, p[0], p[1]);
    if |p| > 2 { NothingBelowZero(pg, st, p[1..]); }
    var mid := PartUp(pg, st, r, p[1]);
    InClassEdges(pg, r, mid);
    EdgeReaches(g, r, mid);
    if |p| == 2 {
      u := mid;
    } else {
      u := PathUp(pg, st, p[1..], mid);
      ReachesTransitive(g, r, mid, u);
    }
  }

  /** The alias set 0 has no parts. */
  lemma NothingBelowZero(pg: Program, st: State, p: seq<nat>)
    requires pg.Valid() && Inv(pg, st, {}) && IsPath(Parts(pg, st.memo), p)
    ensures p[0] != 0
  {
    hide Inv, Parts, HasPart;
    PathTail(Parts(pg, st.memo), p);
    InParts(pg, st.memo, p[0], p[1]);
    PartNotZero(pg, st, p[0], p[1]);
  }

  lemma PartNotZero(pg: Program, st: State, a: nat, b: nat)
    requires pg.Valid() && Inv(pg, st, {}) && HasPart(pg, st.memo, a, b)
    ensures a != 0
  {
    hide Component, Resolve;
    var t, g :| && t in st.memo && pg.Has(t) && pg.Owner(t) && st.memo[t] == a
                && Component(pg, t, g) && pg.Has(g) && Resolve(pg, st.memo, g) == Some(b);
    assert StoredOk(pg, st, t);
  }

  /** One class is inside another exactly if the alias set of the one is below that of the other. */
  lemma ReachesIff(pg: Program, st: State, a: TypeId, b: TypeId)
    requires pg.Valid() && Rebuilt(pg) && Inv(pg, st, {}) && ClassesOk(pg, st.memo) && Stands(pg, st, a)
    ensures Reaches(ClassEdges(pg), a, b) ==> Stands(pg, st, b)
    ensures Stands(pg, st, b) ==> (Reaches(Parts(pg, st.memo), st.memo[a], st.memo[b]) <==> Reaches(ClassEdges(pg), a, b))
  {
    hide Inv, ClassesOk, ClassEdges, Parts, IsRepresentative, Rebuilt;
    if Reaches(ClassEdges(pg), a, b) {
      var p :| IsPath(ClassEdges(pg), p) && p[0] == a && p[|p| - 1] == b;
      PathDown(pg, st, p);
    }
    if Stands(pg, st, b) && Reaches(Parts(pg, st.memo), st.memo[a], st.memo[b]) {
      var p :| IsPath(Parts(pg, st.memo), p) && p[0] == st.memo[a] && p[|p| - 1] == st.memo[b];
      OneSetOneClass(pg, st, a, b);
      OneSetOneClass(pg, st, b, b);
      var u := PathUp(pg, st, p, a);
      OneSetOneClass(pg, st, u, b);
    }
  }

  // ----- Pointers -----

  lemma PointerIff(pg: Program, st: State, a: TypeId)
    requires pg.Valid() && Rebuilt(pg) && Inv(pg, st, {}) && ClassesOk(pg, st.memo) && Stands(pg, st, a)
    ensures st.memo[a] in Pointers(pg, st.memo) <==> a in PointerClasses(pg)
  {
    if st.memo[a] in Pointers(pg, st.memo) {
      var t :| t in st.memo && pg.Has(t) && pg.types[t].shape.IsPointer() && st.memo[t] == st.memo[a];
      assert StoredOk(pg, st, t);
      PointerOfClass(pg, t);
    }
  }

  lemma PointerOfClass(pg: Program, t: TypeId)
    requires pg.Valid() && Rebuilt(pg) && pg.Has(t) && pg.Memoizable(t) && pg.types[t].shape.IsPointer()
    ensures ClassOfSettled(pg, t).Some? && ClassOfSettled(pg, t).value in PointerClasses(pg)
  {
    assert pg.Ranked(t);
    SettledIsRepresentative(pg, t);
  }

  /** An alias set holds a pointer exactly if its class does. */
  lemma HoldsIff(pg: Program, st: State, a: TypeId)
    requires pg.Valid() && Rebuilt(pg) && Inv(pg, st, {}) && ClassesOk(pg, st.memo) && Stands(pg, st, a)
    ensures HoldsPointer(Parts(pg, st.memo), Pointers(pg, st.memo), st.memo[a]) <==>
            HoldsPointer(ClassEdges(pg), PointerClasses(pg), a)
  {
    hide Inv, ClassEdges, Parts, Pointers, PointerClasses, Reaches, Rebuilt;
    PointerIff(pg, st, a);
    if b :| b in Pointers(pg, st.memo) && Reaches(Parts(pg, st.memo), st.memo[a], b) {
      var r := PointerStands(pg, st, b);
      ReachesIff(pg, st, a, r);
      PointerIff(pg, st, r);
    }
    if r :| r in PointerClasses(pg) && Reaches(ClassEdges(pg), a, r) {
      ReachesIff(pg, st, a, r);
      PointerIff(pg, st, r);
    }
  }

  lemma PointerStands(pg: Program, st: State, b: nat) returns (r: TypeId)
    requires pg.Valid() && Rebuilt(pg) && Inv(pg, st, {}) && ClassesOk(pg, st.memo) && b in Pointers(pg, st.memo)
    ensures Stands(pg, st, r) && st.memo[r] == b
  {
    var t :| t in st.memo && pg.Has(t) && pg.types[t].shape.IsPointer() && st.memo[t] == b;
    assert StoredOk(pg, st, t);
    PointerOfClass(pg, t);
    r := ClassOfSettled(pg, t).value;
    assert ClassStored(pg, st.memo, ClassOfSettled(pg, t), st.memo[t]);
  }

  // ----- Conflicts -----

  /** Two classes conflict: one is inside the other, or both hold pointers and one of them is, or holds, the universal pointer
      while the other is a pointer. */
  ghost predicate ClassesConflict(pg: Program, a: TypeId, b: TypeId)
    requires pg.Valid()
  {
    var g, ps, v := ClassEdges(pg), PointerClasses(pg), pg.voidPtr;
    || a == b || Reaches(g, a, b) || Reaches(g, b, a)
    || (&& HoldsPointer(g, ps, a) && HoldsPointer(g, ps, b)
        && (a == v || b == v || (a in ps && Reaches(g, b, v)) || (b in ps && Reaches(g, a, v))))
  }

  /** Two types conflict: one of them aliases everything, or their classes conflict. */
  ghost predicate TypesConflict(pg: Program, strict: bool, a: TypeId, b: TypeId)
    requires pg.Valid() && pg.Has(a) && pg.Has(b)
  {
    var c, d := Class(pg, a), Class(pg, b);
    !strict || c == None || d == None || ClassesConflict(pg, c.value, d.value)
  }

  lemma VoidStands(pg: Program, st: State)
    requires pg.Valid() && Inv(pg, st, {})
    ensures IsRepresentative(pg, pg.voidPtr)
    ensures VoidSet(pg, st) != 0 <==> pg.voidPtr in st.memo
  {
    if pg.voidPtr in st.memo { assert StoredOk(pg, st, pg.voidPtr); }
  }

  /** Without the universal pointer only nesting makes alias sets conflict. */
  lemma ConflictWithoutVoid(t: Sets, g: Edges, pointers: set<nat>, strict: bool, a: nat, b: nat)
    requires Closed(t, g, pointers) && a != 0 && b != 0
    ensures Conflict(t, strict, 0, a, b) <==> !strict || a == b || Reaches(g, a, b) || Reaches(g, b, a)
  {
    assert ClosedAt(t, g, pointers, a);
    assert ClosedAt(t, g, pointers, b);
  }

  lemma SetsConflictIff(pg: Program, st: State, strict: bool, a: TypeId, b: TypeId)
    requires pg.Valid() && Rebuilt(pg) && Explained(pg, st) && Stands(pg, st, a) && Stands(pg, st, b)
    ensures Conflict(st.sets, strict, VoidSet(pg, st), st.memo[a], st.memo[b]) <==> !strict || ClassesConflict(pg, a, b)
  {
    hide Inv, Closed, ClassesOk, ClassEdges, Parts, Pointers, PointerClasses, Reaches, HoldsPointer, IsRepresentative;
    hide Conflict, Rebuilt;
    var g, ps, v := Parts(pg, st.memo), Pointers(pg, st.memo), pg.voidPtr;
    OneSetOneClass(pg, st, a, b);
    OneSetOneClass(pg, st, b, a);
    ReachesIff(pg, st, a, b);
    ReachesIff(pg, st, b, a);
    ReachesIff(pg, st, a, v);
    ReachesIff(pg, st, b, v);
    VoidStands(pg, st);
    if v in st.memo {
      ConflictIsReachability(st.sets, g, ps, strict, st.memo[v], st.memo[a], st.memo[b]);
      OneSetOneClass(pg, st, a, v);
      OneSetOneClass(pg, st, b, v);
      HoldsIff(pg, st, a);
      HoldsIff(pg, st, b);
      PointerIff(pg, st, a);
      PointerIff(pg, st, b);
    } else {
      ConflictWithoutVoid(st.sets, g, ps, strict, st.memo[a], st.memo[b]);
    }
  }

  /** Whatever types were looked up, and in whatever order: the alias sets of two types conflict if and only if the types do. */
  lemma ConflictIffTypesConflict(pg: Program, ts: seq<TypeId>, strict: bool, a: TypeId, b: TypeId)
    requires pg.Valid() && Rebuilt(pg) && (forall i :: 0 <= i < |ts| ==> pg.Has(ts[i])) && a in ts && b in ts
    ensures var st := GetAll(pg, START, ts);
            && Resolve(pg, st.memo, a).Some? && Resolve(pg, st.memo, b).Some?
            && (Conflict(st.sets, strict, VoidSet(pg, st), Resolve(pg, st.memo, a).value, Resolve(pg, st.memo, b).value) <==>
                TypesConflict(pg, strict, a, b))
  {
    hide Inv, Closed, ClassesOk, ClassesConflict, Class, Resolve, GetAll, Rebuilt;
    var st := GetAll(pg, START, ts);
    LookupsExplained(pg, ts);
    StartOk(pg);
    LookupsKeep(pg, START, ts);
    ComponentStands(pg, st, a);
    ComponentStands(pg, st, b);
    if Class(pg, a).Some? && Class(pg, b).Some? {
      SetsConflictIff(pg, st, strict, Class(pg, a).value, Class(pg, b).value);
    }
  }

  /** So the order of lookups, and what else is looked up, makes no difference. */
  lemma OrderDoesNotMatter(pg: Program, ts: seq<TypeId>, us: seq<TypeId>, strict: bool, a: TypeId, b: TypeId)
    requires pg.Valid() && Rebuilt(pg)
    requires (forall i :: 0 <= i < |ts| ==> pg.Has(ts[i])) && (forall i :: 0 <= i < |us| ==> pg.Has(us[i]))
    requires a in ts && b in ts && a in us && b in us
    ensures var st, su := GetAll(pg, START, ts), GetAll(pg, START, us);
            && Resolve(pg, st.memo, a).Some? && Resolve(pg, st.memo, b).Some?
            && Resolve(pg, su.memo, a).Some? && Resolve(pg, su.memo, b).Some?
            && Conflict(st.sets, strict, VoidSet(pg, st), Resolve(pg, st.memo, a).value, Resolve(pg, st.memo, b).value)
               == Conflict(su.sets, strict, VoidSet(pg, su), Resolve(pg, su.memo, a).value, Resolve(pg, su.memo, b).value)
  {
    hide TypesConflict, Conflict, GetAll, Resolve, Rebuilt;
    ConflictIffTypesConflict(pg, ts, strict, a, b);
    ConflictIffTypesConflict(pg, us, strict, a, b);
  }
}
