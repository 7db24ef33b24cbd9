/** Propagation stops by itself, and what holds when it does. */
module AutoFdoSettles {
  import opened AutoFdoPropagate

  // ----- The measure -----

  /** How many of the first `k` edges are not annotated. */
  function Unsure(s: State, k: nat): nat
    requires k <= |s.sure|
  {
    if k == 0 then 0 else Unsure(s, k - 1) + if s.sure[k - 1] then 0 else 1
  }

  /** A side that is known adds up to more than the block. */
  predicate Exceeds(g: Graph, s: State, b: nat, out: bool)
    requires Fits(g, s) && b < g.blocks
  {
    Unknown(g, s, b, out, |g.edges|) == 0 && Total(g, s, b, out, |g.edges|) > s.count[b]
  }

  function Excess(g: Graph, s: State, k: nat): nat
    requires Fits(g, s) && k <= g.blocks
  {
    if k == 0 then 0
    else Excess(g, s, k - 1) + (if Exceeds(g, s, k - 1, true) then 1 else 0) + (if Exceeds(g, s, k - 1, false) then 1 else 0)
  }

  /** `t` has fewer edges not annotated than `s`, or as many and fewer sides that exceed their block. */
  ghost predicate Below(g: Graph, s: State, t: State)
    requires Fits(g, s) && Fits(g, t)
  {
    var u, v := Unsure(s, |g.edges|), Unsure(t, |g.edges|);
    v < u || (v == u && Excess(g, t, g.blocks) < Excess(g, s, g.blocks))
  }

  lemma {:induction false} UnsureFalls(s: State, t: State, k: nat)
    requires k <= |s.sure| == |t.sure| && forall e :: 0 <= e < k && s.sure[e] ==> t.sure[e]
    ensures Unsure(t, k) <= Unsure(s, k)
    ensures (exists e :: 0 <= e < k && !s.sure[e] && t.sure[e]) ==> Unsure(t, k) < Unsure(s, k)
  {
    if k == 0 {
    } else {
      UnsureFalls(s, t, k - 1);
      if e :| 0 <= e < k && !s.sure[e] && t.sure[e] { assert e < k - 1 || e == k - 1; }
    }
  }

  /** The sums of a side depend on its edges alone. */
  lemma {:induction false} SideSame(g: Graph, s: State, t: State, b: nat, out: bool, k: nat)
    requires Fits(g, s) && Fits(g, t) && k <= |g.edges|
    requires forall e :: 0 <= e < k && OnSide(g, b, out, e) ==> s.sure[e] == t.sure[e] && (s.sure[e] ==> s.flow[e] == t.flow[e])
    ensures Unknown(g, s, b, out, k) == Unknown(g, t, b, out, k) && Total(g, s, b, out, k) == Total(g, t, b, out, k)
  {
    if k == 0 {
    } else {
      SideSame(g, s, t, b, out, k - 1);
    }
  }

  /** Raising a block to what a side adds up to leaves one side fewer that exceeds its block. */
  lemma {:induction false} RaiseLowersExcess(g: Graph, s: State, b: nat, out: bool, k: nat)
    requires Fits(g, s) && b < g.blocks && k <= g.blocks && Exceeds(g, s, b, out)
    ensures var t := s.(count := s.count[b := Total(g, s, b, out, |g.edges|)], known := s.known[b := true]);
            Excess(g, t, k) <= Excess(g, s, k) && (b < k ==> Excess(g, t, k) < Excess(g, s, k))
  {
    if k == 0 {
    } else {
      RaiseLowersExcess(g, s, b, out, k - 1);
      var t := s.(count := s.count[b := Total(g, s, b, out, |g.edges|)], known := s.known[b := true]);
      SideSame(g, s, t, k - 1, true, |g.edges|);
      SideSame(g, s, t, k - 1, false, |g.edges|);
    }
  }

  /** A visit that reports a change goes down; one that does not leaves everything as it was. */
  lemma VisitMeasure(g: Graph, s: State, out: bool, b: nat)
    requires Fits(g, s) && b < g.blocks
    ensures var (t, changed) := Visit(g, s, out, b);
            if changed then Below(g, s, t) else t == s
  {
    var (t, changed) := Visit(g, s, out, b);
    var m := |g.edges|;
    if Exceeds(g, s, b, out) {
      RaiseLowersExcess(g, s, b, out, g.blocks);
      UnsureFalls(s, t, m);
      UnsureFalls(t, s, m);
    } else if changed {
      var e := Missing(g, s, b, out, m);
      assert !s.sure[e] && t.sure[e];
      UnsureFalls(s, t, m);
    }
  }

  lemma BelowTrans(g: Graph, a: State, b: State, c: State)
    requires Fits(g, a) && Fits(g, b) && Fits(g, c) && (Below(g, a, b) || a == b) && (Below(g, b, c) || b == c)
    ensures Below(g, a, c) || a == c
    ensures Below(g, a, b) || Below(g, b, c) ==> Below(g, a, c)
  {
  }

  lemma {:induction false} PassMeasure(g: Graph, s: State, out: bool, i: nat)
    requires Fits(g, s) && i <= |g.order|
    ensures var (t, changed) := Pass(g, s, out, i);
            if changed then Below(g, s, t) else t == s
    decreases |g.order| - i
  {
    if i == |g.order| {
    } else {
      hide Visit, Below;
      VisitMeasure(g, s, out, g.order[i]);
      var s1 := Visit(g, s, out, g.order[i]).0;
      PassMeasure(g, s1, out, i + 1);
      BelowTrans(g, s, s1, Pass(g, s, out, i).0);
    }
  }

  /** Annotating edges goes down, and nothing else happens in the circuits. */
  lemma CircuitMeasure(g: Graph, cs: seq<Circuit>, s: State)
    requires Fits(g, s) && CircuitsFit(g, cs)
    ensures var t := CircuitPass(g, cs, s, |cs|);
            Below(g, s, t) || t == s
  {
    var t := CircuitPass(g, cs, s, |cs|);
    CircuitGrows(g, cs, s, |cs|);
    CircuitKnown(g, cs, s, |cs|);
    UnsureFalls(s, t, |g.edges|);
    if !exists e :: 0 <= e < |g.edges| && !s.sure[e] && t.sure[e] {
      assert forall e :: 0 <= e < |g.edges| ==> s.sure[e] == t.sure[e];
      assert s.sure == t.sure;
      assert s.flow == t.flow;
    }
  }

  /** Circuits change no block, and no edge that they leave without annotation. */
  lemma {:induction false} CircuitKnown(g: Graph, cs: seq<Circuit>, s: State, i: nat)
    requires Fits(g, s) && CircuitsFit(g, cs) && i <= |cs|
    ensures var t := CircuitPass(g, cs, s, i);
            t.known == s.known && Untouched(g, s, t)
  {
    if i == 0 {
    } else {
      CircuitKnown(g, cs, s, i - 1);
      CircuitGrows(g, cs, s, i - 1);
      var t := CircuitPass(g, cs, s, i - 1);
      UsesGrows(g, t, cs[i - 1].uses, |cs[i - 1].uses|);
      UsesUntouched(g, t, cs[i - 1].uses, |cs[i - 1].uses|);
      UntouchedTrans(g, s, t, CircuitPass(g, cs, s, i));
    }
  }

  ghost predicate Untouched(g: Graph, s: State, t: State)
    requires Fits(g, s) && Fits(g, t)
  {
    forall e :: 0 <= e < |g.edges| && !t.sure[e] ==> !s.sure[e] && t.flow[e] == s.flow[e]
  }

  lemma UntouchedTrans(g: Graph, a: State, b: State, c: State)
    requires Fits(g, a) && Fits(g, b) && Fits(g, c) && Untouched(g, a, b) && Untouched(g, b, c)
    ensures Untouched(g, a, c)
  {
  }

  lemma {:induction false} ZerosUntouched(g: Graph, s: State, u: Use, j: nat)
    requires Fits(g, s) && UseFits(g, u) && j <= |u.sources|
    ensures Untouched(g, s, Zeros(g, s, u, j))
  {
    if j == 0 {
    } else {
      ZerosUntouched(g, s, u, j - 1);
    }
  }

  lemma {:induction false} UsesUntouched(g: Graph, s: State, uses: seq<Use>, j: nat)
    requires Fits(g, s) && j <= |uses| && forall k :: 0 <= k < |uses| ==> UseFits(g, uses[k])
    ensures Untouched(g, s, Uses(g, s, uses, j))
  {
    if j == 0 {
    } else {
      UsesUntouched(g, s, uses, j - 1);
      var t := Uses(g, s, uses, j - 1);
      ZerosUntouched(g, t, uses[j - 1], |uses[j - 1].sources|);
      UntouchedTrans(g, s, t, Uses(g, s, uses, j));
    }
  }

  /** A round that reports a change goes down. */
  lemma RoundMeasure(g: Graph, cs: seq<Circuit>, s: State)
    requires Fits(g, s) && CircuitsFit(g, cs)
    ensures var (t, changed) := Round(g, cs, s);
            (changed ==> Below(g, s, t)) && (!changed ==> Edges(g, s).0 == s)
  {
    hide Below;
    var s1 := Pass(g, s, true, 0).0;
    var s2 := Pass(g, s1, false, 0).0;
    PassMeasure(g, s, true, 0);
    PassMeasure(g, s1, false, 0);
    BelowTrans(g, s, s1, s2);
    CircuitMeasure(g, cs, s2);
    BelowTrans(g, s, s2, Round(g, cs, s).0);
  }

  // ----- Without and with the cap -----

  /** Rounds until one reports no change: this ends without any cap. */
  function Uncapped(g: Graph, cs: seq<Circuit>, s: State): (t: State)
    requires Fits(g, s) && CircuitsFit(g, cs)
    ensures Fits(g, t)
    decreases Unsure(s, |g.edges|), Excess(g, s, g.blocks)
  {
    RoundMeasure(g, cs, s);
    var (t, changed) := Round(g, cs, s);
    if changed then Uncapped(g, cs, t) else t
  }

  /** Rounds until one reports no change, at most `cap` of them; also whether one did report none. */
  function Capped(g: Graph, cs: seq<Circuit>, s: State, cap: nat): (r: (State, bool))
    requires Fits(g, s) && CircuitsFit(g, cs)
    ensures Fits(g, r.0)
    decreases cap
  {
    if cap == 0 then (s, false)
    else
      var (t, changed) := Round(g, cs, s);
      if changed then Capped(g, cs, t, cap - 1) else (t, true)
  }

  /** Over the whole of a capped run no block count falls, no annotation is withdrawn and no annotated edge changes. */
  lemma {:induction false} CappedGrows(g: Graph, cs: seq<Circuit>, s: State, cap: nat)
    requires Fits(g, s) && CircuitsFit(g, cs)
    ensures Grows(g, s, Capped(g, cs, s, cap).0)
    decreases cap
  {
    if cap > 0 {
      hide Round, Grows;
      RoundGrows(g, cs, s);
      var t := Round(g, cs, s).0;
      CappedGrows(g, cs, t, cap - 1);
      GrowsTrans(g, s, t, Capped(g, cs, s, cap).0);
    } else {
      assert Grows(g, s, s);
    }
  }

  /** A capped run that stops by itself has the outcome of the run without a cap. */
  lemma {:induction false} CappedIsUncapped(g: Graph, cs: seq<Circuit>, s: State, cap: nat)
    requires Fits(g, s) && CircuitsFit(g, cs) && Capped(g, cs, s, cap).1
    ensures Capped(g, cs, s, cap).0 == Uncapped(g, cs, s)
    decreases cap
  {
    hide Round;
    if cap == 0 || !Round(g, cs, s).1 {
    } else {
      CappedIsUncapped(g, cs, Round(g, cs, s).0, cap - 1);
    }
  }

  /** Some cap is enough for every start. */
  lemma {:induction false} EnoughRounds(g: Graph, cs: seq<Circuit>, s: State) returns (cap: nat)
    requires Fits(g, s) && CircuitsFit(g, cs)
    ensures Capped(g, cs, s, cap) == (Uncapped(g, cs, s), true)
    decreases Unsure(s, |g.edges|), Excess(g, s, g.blocks)
  {
    hide Round;
    RoundMeasure(g, cs, s);
    var (t, changed) := Round(g, cs, s);
    if changed {
      cap := EnoughRounds(g, cs, t);
    } else {
      cap := 0;
    }
    cap := cap + 1;
  }

  // ----- When nothing changes -----

  /** Neither rule applies: no annotated block has exactly one unknown edge on a side, and no known side exceeds its block. */
  ghost predicate Quiet(g: Graph, s: State, b: nat)
    requires Fits(g, s) && b < g.blocks
  {
    forall out :: !Exceeds(g, s, b, out) && !(s.known[b] && Unknown(g, s, b, out, |g.edges|) == 1)
  }

  /** Neither rule applies to one side of a block. */
  ghost predicate QuietSide(g: Graph, s: State, b: nat, out: bool)
    requires Fits(g, s) && b < g.blocks
  {
    !Exceeds(g, s, b, out) && !(s.known[b] && Unknown(g, s, b, out, |g.edges|) == 1)
  }

  lemma {:induction false} PassQuiet(g: Graph, s: State, out: bool, i: nat)
    requires Fits(g, s) && i <= |g.order|
    ensures !Pass(g, s, out, i).1 <==> forall k :: i <= k < |g.order| ==> QuietSide(g, s, g.order[k], out)
    decreases |g.order| - i
  {
    if i == |g.order| {
    } else {
      hide Below, Pass, QuietSide;
      VisitMeasure(g, s, out, g.order[i]);
      VisitQuiet(g, s, out, g.order[i]);
      PassQuiet(g, s, out, i + 1);
      PassUnfold(g, s, out, i);
    }
  }

  lemma VisitQuiet(g: Graph, s: State, out: bool, b: nat)
    requires Fits(g, s) && b < g.blocks
    ensures !Visit(g, s, out, b).1 <==> QuietSide(g, s, b, out)
  {
  }

  lemma PassUnfold(g: Graph, s: State, out: bool, i: nat)
    requires Fits(g, s) && i < |g.order|
    ensures var (s1, c1) := Visit(g, s, out, g.order[i]);
            Pass(g, s, out, i).1 == (c1 || Pass(g, s1, out, i + 1).1)
  {
  }

  /** A round reports no change if and only if neither rule applies at any block it visits; then its edge passes change
      nothing. */
  lemma NoChangeIffQuiet(g: Graph, cs: seq<Circuit>, s: State)
    requires Fits(g, s) && CircuitsFit(g, cs)
    ensures !Round(g, cs, s).1 <==> forall k :: 0 <= k < |g.order| ==> Quiet(g, s, g.order[k])
    ensures !Round(g, cs, s).1 ==> Edges(g, s) == (s, false)
  {
    hide Pass, QuietSide, Below;
    PassMeasure(g, s, true, 0);
    PassMeasure(g, s, false, 0);
    PassQuiet(g, s, true, 0);
    PassQuiet(g, s, false, 0);
    forall b: nat | b < g.blocks ensures Quiet(g, s, b) <==> QuietSide(g, s, b, true) && QuietSide(g, s, b, false) {
      QuietSides(g, s, b);
    }
  }

  lemma QuietSides(g: Graph, s: State, b: nat)
    requires Fits(g, s) && b < g.blocks
    ensures Quiet(g, s, b) <==> QuietSide(g, s, b, true) && QuietSide(g, s, b, false)
  {
    if QuietSide(g, s, b, true) && QuietSide(g, s, b, false) {
      forall out ensures QuietSide(g, s, b, out) { assert out == true || out == false; }
    }
  }

  /** A visit that does something balances the side: afterwards it is known, and adds up to the block's count; only where the
      known edges alone add up to more than an annotated block does it add up to more. */
  lemma VisitBalances(g: Graph, s: State, out: bool, b: nat)
    requires Fits(g, s) && b < g.blocks && Visit(g, s, out, b).1
    ensures var t, m := Visit(g, s, out, b).0, |g.edges|;
            && Unknown(g, t, b, out, m) == 0 && t.known[b]
            && Total(g, t, b, out, m) == (if t.count[b] >= Total(g, s, b, out, m) then t.count[b] else Total(g, s, b, out, m))
  {
    var t, m := Visit(g, s, out, b).0, |g.edges|;
    if Exceeds(g, s, b, out) {
      SideSame(g, s, t, b, out, m);
    } else {
      var e := Missing(g, s, b, out, m);
      SettleSide(g, s, t, b, out, e, m);
    }
  }

  /** Settling an unknown edge of a side. */
  lemma {:induction false} SettleSide(g: Graph, s: State, t: State, b: nat, out: bool, e: nat, k: nat)
    requires Fits(g, s) && Fits(g, t) && e < |g.edges| && k <= |g.edges| && OnSide(g, b, out, e) && !s.sure[e]
    requires t.sure == s.sure[e := true] && t.flow == s.flow[e := t.flow[e]]
    ensures Unknown(g, t, b, out, k) == Unknown(g, s, b, out, k) - (if e < k then 1 else 0)
    ensures Total(g, t, b, out, k) == Total(g, s, b, out, k) + (if e < k then t.flow[e] else 0)
  {
    if k == 0 {
    } else {
      SettleSide(g, s, t, b, out, e, k - 1);
    }
  }

  /** Propagation stops with a round that reports no change.  A block that the edge rules visit and could still act on after it
      has an edge that the circuits of that very round annotated. */
  lemma WorkLeftIsNew(g: Graph, cs: seq<Circuit>, s: State, k: nat)
    requires Fits(g, s) && CircuitsFit(g, cs) && !Round(g, cs, s).1
    requires k < |g.order| && !Quiet(g, Round(g, cs, s).0, g.order[k])
    ensures exists e, out :: 0 <= e < |g.edges| && OnSide(g, g.order[k], out, e) && !s.sure[e] && Round(g, cs, s).0.sure[e]
  {
    hide Pass, Quiet, CircuitPass;
    var b, t := g.order[k], Round(g, cs, s).0;
    NoChangeIffQuiet(g, cs, s);
    CircuitGrows(g, cs, s, |cs|);
    CircuitKnown(g, cs, s, |cs|);
    if forall e, out :: 0 <= e < |g.edges| && OnSide(g, b, out, e) && t.sure[e] ==> s.sure[e] {
      StaysQuiet(g, s, t, b);
    }
  }

  lemma StaysQuiet(g: Graph, s: State, t: State, b: nat)
    requires Fits(g, s) && Fits(g, t) && b < g.blocks && Grows(g, s, t) && t.count == s.count && t.known == s.known
    requires Quiet(g, s, b) && forall e, out :: 0 <= e < |g.edges| && OnSide(g, b, out, e) && t.sure[e] ==> s.sure[e]
    ensures Quiet(g, t, b)
  {
    SideSame(g, s, t, b, true, |g.edges|);
    SideSame(g, s, t, b, false, |g.edges|);
    QuietSides(g, s, b);
    QuietSides(g, t, b);
  }

  /** The state the last round of a capped run starts from. */
  function LastStart(g: Graph, cs: seq<Circuit>, s: State, cap: nat): (u: State)
    requires Fits(g, s) && CircuitsFit(g, cs) && Capped(g, cs, s, cap).1
    ensures Fits(g, u) && Round(g, cs, u) == (Capped(g, cs, s, cap).0, false)
    decreases cap
  {
    var (t, changed) := Round(g, cs, s);
    if changed then LastStart(g, cs, t, cap - 1) else s
  }

  /** When the capped loop stops by itself, a block that the edge rules visit and could still act on has an edge that the
      circuits of the last round annotated. */
  lemma CappedWorkLeft(g: Graph, cs: seq<Circuit>, s: State, cap: nat, k: nat)
    requires Fits(g, s) && CircuitsFit(g, cs) && Capped(g, cs, s, cap).1
    requires k < |g.order| && !Quiet(g, Capped(g, cs, s, cap).0, g.order[k])
    ensures var u, t := LastStart(g, cs, s, cap), Capped(g, cs, s, cap).0;
            && Edges(g, u) == (u, false) && t == CircuitPass(g, cs, u, |cs|)
            && exists e, out :: 0 <= e < |g.edges| && OnSide(g, g.order[k], out, e) && !u.sure[e] && t.sure[e]
  {
    hide Edges, CircuitPass, Quiet;
    var u := LastStart(g, cs, s, cap);
    NoChangeIffQuiet(g, cs, u);
    WorkLeftIsNew(g, cs, u, k);
  }

  /** Without circuits the loop leaves no work when it stops by itself. */
  lemma NoCircuitsNoWork(g: Graph, s: State, cap: nat, k: nat)
    requires Fits(g, s) && Capped(g, [], s, cap).1 && k < |g.order|
    ensures Quiet(g, Capped(g, [], s, cap).0, g.order[k])
  {
    hide Edges, Quiet;
    if !Quiet(g, Capped(g, [], s, cap).0, g.order[k]) {
      CappedWorkLeft(g, [], s, cap, k);
    }
  }

  const FORK := Graph(3, [0, 1, 2], [Edge(0, 2), Edge(1, 2), Edge(1, 2)])
  const SHORT := Use(0, [1])

  /** Block 1 has count 5 and two unknown edges; the edge out of block 0 is known to be zero. */
  function ForkState(settled: bool): State {
    State([0, 5, 5], [true, true, false], [0, 0, 0], [true, settled, false])
  }

  /** A round does not count what its circuits do: propagation can stop where an edge has just been settled that leaves an
      annotated block with exactly one unknown edge. */
  lemma CircuitsCanLeaveWork()
    ensures var s, cs := ForkState(false), [Circuit(0, [SHORT])];
            && Fits(FORK, s) && CircuitsFit(FORK, cs)
            && !Round(FORK, cs, s).1 && !Quiet(FORK, Round(FORK, cs, s).0, 1)
  {
    hide Quiet, Round, Fits, CircuitsFit, CircuitPass, UseStep;
    var s, cs := ForkState(false), [Circuit(0, [SHORT])];
    ForkFits();
    ForkQuiet();
    ForkStep();
    OneUse(FORK, cs, s, ForkState(true));
    ForkLeft();
    WorkLeft(FORK, cs, s, ForkState(true), 1);
  }

  lemma ForkFits()
    ensures Fits(FORK, ForkState(false)) && CircuitsFit(FORK, [Circuit(0, [SHORT])])
  {
    assert UseFits(FORK, SHORT);
  }

  /** From a state in which no rule applies a round only does what its circuits do. */
  lemma WorkLeft(g: Graph, cs: seq<Circuit>, s: State, t: State, b: nat)
    requires Fits(g, s) && CircuitsFit(g, cs) && b < g.blocks && (forall i :: 0 <= i < g.blocks ==> Quiet(g, s, i))
    requires CircuitPass(g, cs, s, |cs|) == t && !Quiet(g, t, b)
    ensures !Round(g, cs, s).1 && !Quiet(g, Round(g, cs, s).0, b)
  {
    hide Quiet, Edges, CircuitPass;
    NoChangeIffQuiet(g, cs, s);
  }

  lemma ForkQuiet()
    ensures Fits(FORK, ForkState(false)) && forall b: nat :: b < 3 ==> Quiet(FORK, ForkState(false), b)
  {
    ThreeEdges(FORK, ForkState(false));
  }

  lemma ForkStep()
    ensures Fits(FORK, ForkState(false)) && UseFits(FORK, SHORT)
    ensures UseStep(FORK, ForkState(false), SHORT) == ForkState(true)
  {
    var s := ForkState(false);
    assert Zeros(FORK, s, SHORT, 0) == s;
    assert Settle(s, 1, 0) == ForkState(true);
    assert Zeros(FORK, s, SHORT, 1) == ForkState(true);
  }

  lemma ForkLeft()
    ensures Fits(FORK, ForkState(true)) && !Quiet(FORK, ForkState(true), 1)
  {
    ThreeEdges(FORK, ForkState(true));
    assert Unknown(FORK, ForkState(true), 1, true, |FORK.edges|) == 1;
  }

  lemma OneUse(g: Graph, cs: seq<Circuit>, s: State, t: State)
    requires Fits(g, s) && CircuitsFit(g, cs) && |cs| == 1 && |cs[0].uses| == 1 && |cs[0].uses[0].sources| == 1
    requires s.known[cs[0].block] && UseStep(g, s, cs[0].uses[0]) == t
    ensures CircuitPass(g, cs, s, 1) == t
  {
    assert CircuitPass(g, cs, s, 0) == s;
    assert Uses(g, s, cs[0].uses, 0) == s;
    assert Uses(g, s, cs[0].uses, 1) == t;
  }

  lemma ThreeEdges(g: Graph, s: State)
    requires Fits(g, s) && |g.edges| == 3
    ensures forall b: nat, out ::
              && Unknown(g, s, b, out, 3) == Missed(g, s, b, out, 0) + Missed(g, s, b, out, 1) + Missed(g, s, b, out, 2)
              && Total(g, s, b, out, 3) == Added(g, s, b, out, 0) + Added(g, s, b, out, 1) + Added(g, s, b, out, 2)
  {
    forall b: nat, out
      ensures Unknown(g, s, b, out, 3) == Missed(g, s, b, out, 0) + Missed(g, s, b, out, 1) + Missed(g, s, b, out, 2)
      ensures Total(g, s, b, out, 3) == Added(g, s, b, out, 0) + Added(g, s, b, out, 1) + Added(g, s, b, out, 2)
    {
      assert Unknown(g, s, b, out, 1) == Missed(g, s, b, out, 0);
      assert Unknown(g, s, b, out, 2) == Missed(g, s, b, out, 0) + Missed(g, s, b, out, 1);
      assert Total(g, s, b, out, 1) == Added(g, s, b, out, 0);
      assert Total(g, s, b, out, 2) == Added(g, s, b, out, 0) + Added(g, s, b, out, 1);
    }
  }

  function Missed(g: Graph, s: State, b: nat, out: bool, e: nat): nat
    requires e < |g.edges| == |s.sure|
  {
    if OnSide(g, b, out, e) && !s.sure[e] then 1 else 0
  }

  function Added(g: Graph, s: State, b: nat, out: bool, e: nat): nat
    requires e < |g.edges| == |s.sure| == |s.flow|
  {
    if OnSide(g, b, out, e) && s.sure[e] then s.flow[e] else 0
  }
}
