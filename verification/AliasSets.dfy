/** The alias-set table: which alias sets are recorded as subsets of which, kept as an incremental transitive closure so
    that a query looks one level down. */
module AliasSets {
  import opened Options

  datatype Entry = Entry(hasZeroChild: bool, isPointer: bool, hasPointer: bool, children: set<nat>)

  const EMPTY := Entry(false, false, false, {})

  /** The table: position `s` holds the entry of alias set `s`, if one has been made; position 0 is never filled. */
  type Sets = seq<Option<Entry>>

  function Find(t: Sets, s: nat): Option<Entry> {
    if s < |t| then t[s] else None
  }

  /** The entry of `s`, or an empty one. */
  function EntryOf(t: Sets, s: nat): Entry {
    if Find(t, s).Some? then Find(t, s).value else EMPTY
  }

  function NewSet(t: Sets): (Sets, nat) {
    var t' := (if t == [] then [None] else t) + [None];
    (t', |t'| - 1)
  }

  /** Marks `s` as the alias set of a pointer type. */
  function MarkPointer(t: Sets, s: nat): Sets
    requires s < |t|
  {
    t[s := Some(EntryOf(t, s).(isPointer := true, hasPointer := true))]
  }

  /** Records `sub` as a subset of `sup`: `sup` takes over what `sub` has at this moment. */
  function RecordSubset(t: Sets, sup: nat, sub: nat): Sets
    requires sup == sub || 0 < sup < |t|
  {
    if sup == sub then t
    else
      var e, f := EntryOf(t, sup), EntryOf(t, sub);
      t[sup := Some(if sub == 0 then e.(hasZeroChild := true)
                    else e.(hasZeroChild := e.hasZeroChild || f.hasZeroChild,
                            hasPointer := e.hasPointer || f.hasPointer,
                            children := e.children + f.children + {sub}))]
  }

  // ----- Reachability over the recorded edges -----

  type Edges = set<(nat, nat)>

  predicate IsPath(g: Edges, p: seq<nat>) {
    |p| >= 2 && forall i :: 0 <= i < |p| - 1 ==> (p[i], p[i + 1]) in g
  }

  /** `b` can be reached from `a` by one or more edges. */
  ghost predicate Reaches(g: Edges, a: nat, b: nat) {
    exists p :: IsPath(g, p) && p[0] == a && p[|p| - 1] == b
  }

  /** No recorded edge leads to `s`: it is nobody's subset yet. */
  predicate NotYetSubset(g: Edges, s: nat) {
    forall e :: e in g ==> e.1 != s
  }

  lemma EdgeReaches(g: Edges, a: nat, b: nat)
    requires (a, b) in g
    ensures Reaches(g, a, b)
  {
    var p := [a, b];
    assert IsPath(g, p) && p[0] == a && p[|p| - 1] == b;
  }

  lemma ReachesTransitive(g: Edges, a: nat, b: nat, c: nat)
    requires Reaches(g, a, b) && Reaches(g, b, c)
    ensures Reaches(g, a, c)
  {
    var p :| IsPath(g, p) && p[0] == a && p[|p| - 1] == b;
    var q :| IsPath(g, q) && q[0] == b && q[|q| - 1] == c;
    var r := p + q[1..];
    forall i | 0 <= i < |r| - 1 ensures (r[i], r[i + 1]) in g {
      if i >= |p| - 1 { assert (q[i - |p| + 1], q[i - |p| + 2]) in g; }
    }
    assert IsPath(g, r) && r[0] == a && r[|r| - 1] == c;
  }

  lemma MoreEdges(g: Edges, h: Edges, a: nat, b: nat)
    requires g <= h && Reaches(g, a, b)
    ensures Reaches(h, a, b)
  {
    var p :| IsPath(g, p) && p[0] == a && p[|p| - 1] == b;
    assert IsPath(h, p);
  }

  /** What a new edge makes reachable, whatever cycles there are. */
  lemma NewEdgeReaches(g: Edges, sup: nat, sub: nat, a: nat, b: nat)
    ensures Reaches(g + {(sup, sub)}, a, b) <==>
            Reaches(g, a, b) || ((a == sup || Reaches(g, a, sup)) && (b == sub || Reaches(g, sub, b)))
  {
    var h := g + {(sup, sub)};
    if Reaches(h, a, b) {
      var p :| IsPath(h, p) && p[0] == a && p[|p| - 1] == b;
      PathOverNewEdge(g, sup, sub, p);
    }
    if Reaches(g, a, b) { MoreEdges(g, h, a, b); }
    if (a == sup || Reaches(g, a, sup)) && (b == sub || Reaches(g, sub, b)) {
      EdgeReaches(h, sup, sub);
      if a != sup {
        MoreEdges(g, h, a, sup);
        ReachesTransitive(h, a, sup, sub);
      }
      if b != sub {
        MoreEdges(g, h, sub, b);
        ReachesTransitive(h, a, sub, b);
      }
    }
  }

  lemma {:induction false} PathOverNewEdge(g: Edges, sup: nat, sub: nat, p: seq<nat>)
    requires IsPath(g + {(sup, sub)}, p)
    ensures var a, b := p[0], p[|p| - 1];
            Reaches(g, a, b) || ((a == sup || Reaches(g, a, sup)) && (b == sub || Reaches(g, sub, b)))
    decreases |p|
  {
    var h, a, b, x := g + {(sup, sub)}, p[0], p[|p| - 1], p[1];
    assert (p[0], p[0 + 1]) in h;
    if (a, x) in g { EdgeReaches(g, a, x); }
    if |p| == 2 {
    } else {
      var q := p[1..];
      forall i | 0 <= i < |q| - 1 ensures (q[i], q[i + 1]) in h {
        assert (p[i + 1], p[i + 1 + 1]) in h;
      }
      PathOverNewEdge(g, sup, sub, q);
      if (a, x) in g {
        if Reaches(g, x, b) { ReachesTransitive(g, a, x, b); }
        if Reaches(g, x, sup) { ReachesTransitive(g, a, x, sup); }
      }
    }
  }

  // ----- The closure the table keeps -----

  /** The entry of `s` holds exactly what is reachable from it. */
  ghost predicate ClosedAt(t: Sets, g: Edges, pointers: set<nat>, s: nat) {
    var e := EntryOf(t, s);
    && (forall b :: b in e.children <==> b != 0 && Reaches(g, s, b))
    && (e.hasZeroChild <==> Reaches(g, s, 0))
    && (e.isPointer <==> s in pointers)
    && (e.hasPointer <==> s in pointers || exists b :: b in pointers && Reaches(g, s, b))
  }

  ghost predicate Closed(t: Sets, g: Edges, pointers: set<nat>) {
    && (forall e :: e in g ==> 0 < e.0 < |t|)
    && (forall p :: p in pointers ==> 0 < p < |t|)
    && forall s :: ClosedAt(t, g, pointers, s)
  }

  lemma NoPath(g: Edges, a: nat, b: nat)
    requires g == {}
    ensures !Reaches(g, a, b)
  {
    if Reaches(g, a, b) { FirstEdge(g, a, b); }
  }

  lemma FirstEdge(g: Edges, a: nat, b: nat)
    requires Reaches(g, a, b)
    ensures exists e :: e in g && e.0 == a
  {
    var p :| IsPath(g, p) && p[0] == a && p[|p| - 1] == b;
    assert (p[0], p[0 + 1]) in g;
  }

  lemma LastEdge(g: Edges, a: nat, b: nat)
    requires Reaches(g, a, b)
    ensures exists e :: e in g && e.1 == b
  {
    var p :| IsPath(g, p) && p[0] == a && p[|p| - 1] == b;
    var i := |p| - 2;
    assert (p[i], p[i + 1]) in g;
  }

  lemma ClosedInitially()
    ensures Closed([], {}, {})
  {
    forall s ensures ClosedAt([], {}, {}, s) {
      forall b ensures !Reaches({}, s, b) { NoPath({}, s, b); }
    }
  }

  lemma NewSetKeepsClosed(t: Sets, g: Edges, pointers: set<nat>)
    requires Closed(t, g, pointers)
    ensures Closed(NewSet(t).0, g, pointers)
  {
    forall s ensures ClosedAt(NewSet(t).0, g, pointers, s) {
      assert ClosedAt(t, g, pointers, s);
      assert EntryOf(NewSet(t).0, s) == EntryOf(t, s);
    }
  }

  /** Whatever else has `sup` below it has `sub` below it already. */
  ghost predicate NothingLate(g: Edges, sup: nat, sub: nat) {
    forall s :: s != sup && Reaches(g, s, sup) ==> Reaches(g, s, sub)
  }

  /** Recording a subset keeps the closure if and only if every other set that has the superset below it has the subset below it
      already. */
  lemma RecordClosedIff(t: Sets, g: Edges, pointers: set<nat>, sup: nat, sub: nat)
    requires Closed(t, g, pointers) && 0 < sup < |t| && sup != sub
    ensures Closed(RecordSubset(t, sup, sub), g + {(sup, sub)}, pointers) <==> NothingLate(g, sup, sub)
  {
    var t', h := RecordSubset(t, sup, sub), g + {(sup, sub)};
    if NothingLate(g, sup, sub) {
      forall s ensures ClosedAt(t', h, pointers, s) {
        RecordClosedAt(t, g, pointers, sup, sub, s);
      }
    }
    if Closed(t', h, pointers) {
      forall s | s != sup && Reaches(g, s, sup) ensures Reaches(g, s, sub) {
        NewEdgeReaches(g, sup, sub, s, sub);
        assert ClosedAt(t', h, pointers, s) && ClosedAt(t, g, pointers, s);
      }
    }
  }

  lemma RecordClosedAt(t: Sets, g: Edges, pointers: set<nat>, sup: nat, sub: nat, s: nat)
    requires Closed(t, g, pointers) && 0 < sup < |t| && sup != sub && NothingLate(g, sup, sub)
    ensures ClosedAt(RecordSubset(t, sup, sub), g + {(sup, sub)}, pointers, s)
  {
    var h := g + {(sup, sub)};
    forall b
      ensures Reaches(h, s, b) <==> Reaches(g, s, b) || (s == sup && (b == sub || Reaches(g, sub, b)))
    {
      NewEdgeReaches(g, sup, sub, s, b);
      if s != sup && Reaches(g, s, sup) && Reaches(g, sub, b) { ReachesTransitive(g, s, sub, b); }
    }
    assert ClosedAt(t, g, pointers, s);
    assert ClosedAt(t, g, pointers, sub);
    if sub == 0 {
      forall b ensures !Reaches(g, 0, b) {
        if Reaches(g, 0, b) { FirstEdge(g, 0, b); }
      }
    }
  }

  /** In particular, recording a subset of a set that is nobody's subset yet keeps the closure. */
  lemma RecordKeepsClosed(t: Sets, g: Edges, pointers: set<nat>, sup: nat, sub: nat)
    requires Closed(t, g, pointers) && 0 < sup < |t| && sup != sub && NotYetSubset(g, sup)
    ensures Closed(RecordSubset(t, sup, sub), g + {(sup, sub)}, pointers)
  {
    hide Closed, Reaches;
    forall s | Reaches(g, s, sup) ensures false {
      LastEdge(g, s, sup);
    }
    RecordClosedIff(t, g, pointers, sup, sub);
  }

  /** Marking a set as a pointer set keeps the closure if and only if every other set that has it below it holds a pointer
      already. */
  lemma MarkClosedIff(t: Sets, g: Edges, pointers: set<nat>, p: nat)
    requires Closed(t, g, pointers) && 0 < p < |t|
    ensures Closed(MarkPointer(t, p), g, pointers + {p}) <==>
            forall s :: s != p && Reaches(g, s, p) ==> HoldsPointer(g, pointers, s)
  {
    var t', marked := MarkPointer(t, p), pointers + {p};
    if forall s :: s != p && Reaches(g, s, p) ==> HoldsPointer(g, pointers, s) {
      forall s ensures ClosedAt(t', g, marked, s) {
        assert ClosedAt(t, g, pointers, s);
      }
    }
    if Closed(t', g, marked) {
      forall s | s != p && Reaches(g, s, p) ensures HoldsPointer(g, pointers, s) {
        assert ClosedAt(t', g, marked, s) && ClosedAt(t, g, pointers, s);
      }
    }
  }

  /** In particular, marking a set that is nobody's subset yet keeps the closure. */
  lemma MarkKeepsClosed(t: Sets, g: Edges, pointers: set<nat>, p: nat)
    requires Closed(t, g, pointers) && 0 < p < |t| && NotYetSubset(g, p)
    ensures Closed(MarkPointer(t, p), g, pointers + {p})
  {
    hide Closed, Reaches;
    forall s | Reaches(g, s, p) ensures false {
      LastEdge(g, s, p);
    }
    MarkClosedIff(t, g, pointers, p);
  }

  // ----- Whole histories -----

  datatype Event = New | Record(sup: nat, sub: nat) | Mark(s: nat)

  datatype History = History(sets: Sets, edges: Edges, pointers: set<nat>)

  const NOTHING := History([], {}, {})

  /** A set gains subsets, or becomes a pointer set, only before it becomes someone's subset; and only existing sets are
      given subsets or marked. */
  predicate Allowed(r: History, e: Event) {
    match e
    case New => true
    case Record(sup, sub) => sup == sub || (0 < sup < |r.sets| && NotYetSubset(r.edges, sup))
    case Mark(s) => 0 < s < |r.sets| && NotYetSubset(r.edges, s)
  }

  function Apply(r: History, e: Event): History
    requires Allowed(r, e)
  {
    match e
    case New => r.(sets := NewSet(r.sets).0)
    case Record(sup, sub) =>
      if sup == sub then r else History(RecordSubset(r.sets, sup, sub), r.edges + {(sup, sub)}, r.pointers)
    case Mark(s) => History(MarkPointer(r.sets, s), r.edges, r.pointers + {s})
  }

  predicate Disciplined(r: History, es: seq<Event>)
    decreases |es|
  {
    es == [] || (Allowed(r, es[0]) && Disciplined(Apply(r, es[0]), es[1..]))
  }

  function ApplyAll(r: History, es: seq<Event>): History
    requires Disciplined(r, es)
    decreases |es|
  {
    if es == [] then r else ApplyAll(Apply(r, es[0]), es[1..])
  }

  /** After any disciplined history the children, zero and pointer flags of every set are exactly reachability over the
      recorded edges. */
  lemma {:induction false} HistoryClosed(r: History, es: seq<Event>)
    requires Closed(r.sets, r.edges, r.pointers) && Disciplined(r, es)
    ensures var end := ApplyAll(r, es); Closed(end.sets, end.edges, end.pointers)
    decreases |es|
  {
    if es == [] {
    } else {
      match es[0] {
        case New => NewSetKeepsClosed(r.sets, r.edges, r.pointers);
        case Record(sup, sub) => if sup != sub { RecordKeepsClosed(r.sets, r.edges, r.pointers, sup, sub); }
        case Mark(s) => MarkKeepsClosed(r.sets, r.edges, r.pointers, s);
      }
      HistoryClosed(Apply(r, es[0]), es[1..]);
    }
  }

  /** Without the discipline the closure can miss a set: 3 becomes a subset of 2 after 2 became a subset of 1. */
  lemma LateSubsetMissed()
    ensures var t := RecordSubset(RecordSubset([None, None, None, None], 1, 2), 2, 3);
            Reaches({(1, 2), (2, 3)}, 1, 3) && 3 !in EntryOf(t, 1).children
  {
    var g: Edges := {(1, 2), (2, 3)};
    EdgeReaches(g, 1, 2);
    EdgeReaches(g, 2, 3);
    ReachesTransitive(g, 1, 2, 3);
  }

  // ----- Queries -----

  predicate MustConflict(strict: bool, a: nat, b: nat) {
    !strict || a == 0 || b == 0 || a == b
  }

  /** alias_sets_conflict_p; `voidPtr` is the alias set of the universal pointer. */
  predicate Conflict(t: Sets, strict: bool, voidPtr: nat, a: nat, b: nat) {
    || MustConflict(strict, a, b)
    || b in EntryOf(t, a).children
    || a in EntryOf(t, b).children
    || (&& Find(t, a).Some? && Find(t, b).Some? && EntryOf(t, a).hasPointer && EntryOf(t, b).hasPointer
        && (|| a == voidPtr || b == voidPtr
            || (EntryOf(t, a).isPointer && b != voidPtr && voidPtr in EntryOf(t, b).children)
            || (EntryOf(t, b).isPointer && a != voidPtr && voidPtr in EntryOf(t, a).children)))
  }

  /** alias_set_subset_of. */
  predicate SubsetOf(t: Sets, strict: bool, voidPtr: nat, a: nat, b: nat) {
    || !strict || b == 0
    || (Find(t, b).Some? && (EntryOf(t, b).hasZeroChild || a in EntryOf(t, b).children))
    || (&& Find(t, b).Some? && EntryOf(t, b).hasPointer && Find(t, a).Some? && EntryOf(t, a).isPointer
        && (a == voidPtr || b == voidPtr || (a != voidPtr && voidPtr in EntryOf(t, b).children)))
  }

  /** A pointer set, or a set from which one is reachable. */
  ghost predicate HoldsPointer(g: Edges, pointers: set<nat>, s: nat) {
    s in pointers || exists b :: b in pointers && Reaches(g, s, b)
  }

  /** The one-level query answers the question about reachability. */
  lemma ConflictIsReachability(t: Sets, g: Edges, pointers: set<nat>, strict: bool, voidPtr: nat, a: nat, b: nat)
    requires Closed(t, g, pointers) && voidPtr != 0
    ensures Conflict(t, strict, voidPtr, a, b) <==>
            || MustConflict(strict, a, b) || Reaches(g, a, b) || Reaches(g, b, a)
            || (&& HoldsPointer(g, pointers, a) && HoldsPointer(g, pointers, b)
                && (|| a == voidPtr || b == voidPtr
                    || (a in pointers && Reaches(g, b, voidPtr)) || (b in pointers && Reaches(g, a, voidPtr))))
  {
    assert ClosedAt(t, g, pointers, a);
    assert ClosedAt(t, g, pointers, b);
    assert ClosedAt(t, g, pointers, 0);
  }

  lemma ConflictSymmetric(t: Sets, strict: bool, voidPtr: nat, a: nat, b: nat)
    ensures Conflict(t, strict, voidPtr, a, b) <==> Conflict(t, strict, voidPtr, b, a)
  {
  }

  /** Likewise for the subset query. */
  lemma SubsetIsReachability(t: Sets, g: Edges, pointers: set<nat>, strict: bool, voidPtr: nat, a: nat, b: nat)
    requires Closed(t, g, pointers) && voidPtr != 0
    ensures SubsetOf(t, strict, voidPtr, a, b) <==>
            || !strict || b == 0 || Reaches(g, b, 0) || (a != 0 && Reaches(g, b, a))
            || (&& HoldsPointer(g, pointers, b) && a in pointers
                && (a == voidPtr || b == voidPtr || Reaches(g, b, voidPtr)))
  {
    assert ClosedAt(t, g, pointers, a);
    assert ClosedAt(t, g, pointers, b);
  }

  // ----- The table updated in place -----

  class AliasTable {
    var sets: Sets

    constructor ()
      ensures sets == []
    {
      sets := [];
    }

    method NewAliasSet() returns (s: nat)
      modifies this
      ensures (sets, s) == NewSet(old(sets))
    {
      if sets == [] {
        sets := [None];
      }
      sets := sets + [None];
      s := |sets| - 1;
    }

    /** Copies the children of `from`, one by one, into the entry of `to`. */
    method CopyChildren(to: nat, from: set<nat>)
      requires to < |sets| && sets[to].Some?
      modifies this
      ensures sets == old(sets)[to := Some(old(sets[to].value).(children := old(sets[to].value).children + from))]
    {
      var rest, done := from, {};
      assert sets[to].value.(children := sets[to].value.children + done) == sets[to].value by {
        assert sets[to].value.children + done == sets[to].value.children;
      }
      while rest != {}
        invariant rest + done == from
        invariant to < |old(sets)|
        invariant sets == old(sets)[to := Some(old(sets[to].value).(children := old(sets[to].value).children + done))]
        decreases rest
      {
        var x :| x in rest;
        sets := sets[to := Some(sets[to].value.(children := sets[to].value.children + {x}))];
        assert old(sets[to].value).children + done + {x} == old(sets[to].value).children + (done + {x});
        rest, done := rest - {x}, done + {x};
      }
      assert done == from;
    }

    method MarkAsPointer(s: nat)
      requires s < |sets|
      modifies this
      ensures sets == MarkPointer(old(sets), s)
    {
      if sets[s] == None {
        sets := sets[s := Some(EMPTY)];
      }
      sets := sets[s := Some(sets[s].value.(isPointer := true))];
      sets := sets[s := Some(sets[s].value.(hasPointer := true))];
    }

    method RecordAliasSubset(sup: nat, sub: nat)
      requires sup == sub || 0 < sup < |sets|
      modifies this
      ensures sets == RecordSubset(old(sets), sup, sub)
    {
      if sup == sub { return; }
      if sets[sup] == None {
        sets := sets[sup := Some(EMPTY)];
      }
      ghost var e := sets[sup].value;
      if sub == 0 {
        sets := sets[sup := Some(sets[sup].value.(hasZeroChild := true))];
      } else {
        var f := Find(sets, sub);
        if f.Some? {
          if f.value.hasZeroChild {
            sets := sets[sup := Some(sets[sup].value.(hasZeroChild := true))];
          }
          if f.value.hasPointer {
            sets := sets[sup := Some(sets[sup].value.(hasPointer := true))];
          }
          CopyChildren(sup, f.value.children);
        }
        sets := sets[sup := Some(sets[sup].value.(children := sets[sup].value.children + {sub}))];
        assert e.children + EntryOf(old(sets), sub).children + {sub} == sets[sup].value.children;
      }
    }
  }
}
