/** Propagation of sampled counts over the control flow graph. */
module AutoFdoPropagate {

  /** Edges by number, with their ends; `order` lists the blocks that the edge rules visit. */
  datatype Edge = Edge(src: nat, dst: nat)
  datatype Graph = Graph(blocks: nat, order: seq<nat>, edges: seq<Edge>)

  /** A block that branches on a merge of constants: for each of its outgoing edges, the merge edges with the value that leads
      there. */
  datatype Circuit = Circuit(block: nat, uses: seq<Use>)
  datatype Use = Use(edge: nat, sources: seq<nat>)

  /** Block counts, which blocks are annotated, edge counts, and which edges are. */
  datatype State = State(count: seq<nat>, known: seq<bool>, flow: seq<nat>, sure: seq<bool>)

  ghost predicate Fits(g: Graph, s: State) {
    && |s.count| == |s.known| == g.blocks && |s.flow| == |s.sure| == |g.edges|
    && forall i :: 0 <= i < |g.order| ==> g.order[i] < g.blocks
  }

  ghost predicate CircuitsFit(g: Graph, cs: seq<Circuit>) {
    && (forall i :: 0 <= i < |cs| ==> cs[i].block < g.blocks)
    && (forall i, j :: 0 <= i < |cs| && 0 <= j < |cs[i].uses| ==> UseFits(g, cs[i].uses[j]))
  }

  ghost predicate UseFits(g: Graph, u: Use) {
    u.edge < |g.edges| && forall k :: 0 <= k < |u.sources| ==> u.sources[k] < |g.edges|
  }

  // ----- One side of a block -----

  predicate OnSide(g: Graph, b: nat, out: bool, e: nat)
    requires e < |g.edges|
  {
    if out then g.edges[e].src == b else g.edges[e].dst == b
  }

  /** How many of the first `k` edges are on the side and not annotated. */
  function Unknown(g: Graph, s: State, b: nat, out: bool, k: nat): nat
    requires k <= |g.edges| == |s.sure|
  {
    if k == 0 then 0
    else Unknown(g, s, b, out, k - 1) + if OnSide(g, b, out, k - 1) && !s.sure[k - 1] then 1 else 0
  }

  /** What those that are annotated add up to. */
  function Total(g: Graph, s: State, b: nat, out: bool, k: nat): nat
    requires k <= |g.edges| == |s.sure| == |s.flow|
  {
    if k == 0 then 0
    else Total(g, s, b, out, k - 1) + if OnSide(g, b, out, k - 1) && s.sure[k - 1] then s.flow[k - 1] else 0
  }

  /** The last of those that are not. */
  function Missing(g: Graph, s: State, b: nat, out: bool, k: nat): (e: nat)
    requires k <= |g.edges| == |s.sure| && Unknown(g, s, b, out, k) > 0
    ensures e < k && OnSide(g, b, out, e) && !s.sure[e]
  {
    if OnSide(g, b, out, k - 1) && !s.sure[k - 1] then k - 1 else Missing(g, s, b, out, k - 1)
  }

  /** The two rules for a block and one of its sides: a side that is known raises the block, and a block that is known settles
      the one edge that is not. */
  function Visit(g: Graph, s: State, out: bool, b: nat): (r: (State, bool))
    requires Fits(g, s) && b < g.blocks
    ensures Fits(g, r.0)
  {
    var m := |g.edges|;
    var unknown, total := Unknown(g, s, b, out, m), Total(g, s, b, out, m);
    if unknown == 0 && total > s.count[b] then (s.(count := s.count[b := total], known := s.known[b := true]), true)
    else if unknown == 1 && s.known[b] then
      var e := Missing(g, s, b, out, m);
      var rest := if s.count[b] > total then s.count[b] - total else 0;
      (s.(flow := s.flow[e := rest], sure := s.sure[e := true]), true)
    else (s, false)
  }

  /** The blocks from place `i` of the order on. */
  function Pass(g: Graph, s: State, out: bool, i: nat): (r: (State, bool))
    requires Fits(g, s) && i <= |g.order|
    ensures Fits(g, r.0)
    decreases |g.order| - i
  {
    if i == |g.order| then (s, false)
    else
      var (s1, c1) := Visit(g, s, out, g.order[i]);
      var (s2, c2) := Pass(g, s1, out, i + 1);
      (s2, c1 || c2)
  }

  // ----- Circuits -----

  function Settle(s: State, e: nat, v: nat): State
    requires e < |s.flow| == |s.sure|
  {
    if s.sure[e] then s else s.(flow := s.flow[e := v], sure := s.sure[e := true])
  }

  /** Zero on the outgoing edge means zero on each of its sources; `j` are done. */
  function Zeros(g: Graph, s: State, u: Use, j: nat): (r: State)
    requires Fits(g, s) && UseFits(g, u) && j <= |u.sources|
    ensures Fits(g, r)
  {
    if j == 0 then s
    else
      var t := Zeros(g, s, u, j - 1);
      if t.flow[u.edge] == 0 then Settle(t, u.sources[j - 1], 0) else t
  }

  function UseStep(g: Graph, s: State, u: Use): (r: State)
    requires Fits(g, s) && UseFits(g, u)
    ensures Fits(g, r)
  {
    if !s.sure[u.edge] then s
    else
      var t := Zeros(g, s, u, |u.sources|);
      if |u.sources| == 1 then Settle(t, u.sources[0], t.flow[u.edge]) else t
  }

  function Uses(g: Graph, s: State, uses: seq<Use>, j: nat): (r: State)
    requires Fits(g, s) && j <= |uses| && forall k :: 0 <= k < |uses| ==> UseFits(g, uses[k])
    ensures Fits(g, r)
  {
    if j == 0 then s else UseStep(g, Uses(g, s, uses, j - 1), uses[j - 1])
  }

  function CircuitPass(g: Graph, cs: seq<Circuit>, s: State, i: nat): (r: State)
    requires Fits(g, s) && CircuitsFit(g, cs) && i <= |cs|
    ensures Fits(g, r)
  {
    if i == 0 then s
    else
      var t := CircuitPass(g, cs, s, i - 1);
      if t.known[cs[i - 1].block] then Uses(g, t, cs[i - 1].uses, |cs[i - 1].uses|) else t
  }

  /** What the two edge passes of a round do. */
  function Edges(g: Graph, s: State): (r: (State, bool))
    requires Fits(g, s)
    ensures Fits(g, r.0)
  {
    var (s1, c1) := Pass(g, s, true, 0);
    var (s2, c2) := Pass(g, s1, false, 0);
    (s2, c1 || c2)
  }

  function Round(g: Graph, cs: seq<Circuit>, s: State): (r: (State, bool))
    requires Fits(g, s) && CircuitsFit(g, cs)
    ensures Fits(g, r.0)
  {
    var (t, changed) := Edges(g, s);
    (CircuitPass(g, cs, t, |cs|), changed)
  }

  // ----- What only grows -----

  /** From `s` to `t` no block count falls, no annotation is withdrawn, and no annotated edge changes. */
  ghost predicate Grows(g: Graph, s: State, t: State)
    requires Fits(g, s) && Fits(g, t)
  {
    && (forall b :: 0 <= b < g.blocks ==> s.count[b] <= t.count[b] && (s.known[b] ==> t.known[b]))
    && (forall e :: 0 <= e < |g.edges| && s.sure[e] ==> t.sure[e] && t.flow[e] == s.flow[e])
  }

  lemma GrowsTrans(g: Graph, a: State, b: State, c: State)
    requires Fits(g, a) && Fits(g, b) && Fits(g, c) && Grows(g, a, b) && Grows(g, b, c)
    ensures Grows(g, a, c)
  {
  }

  lemma {:induction false} PassGrows(g: Graph, s: State, out: bool, i: nat)
    requires Fits(g, s) && i <= |g.order|
    ensures Grows(g, s, Pass(g, s, out, i).0)
    decreases |g.order| - i
  {
    if i == |g.order| {
    } else {
      var s1 := Visit(g, s, out, g.order[i]).0;
      assert Grows(g, s, s1);
      PassGrows(g, s1, out, i + 1);
      GrowsTrans(g, s, s1, Pass(g, s, out, i).0);
    }
  }

  lemma {:induction false} ZerosGrows(g: Graph, s: State, u: Use, j: nat)
    requires Fits(g, s) && UseFits(g, u) && j <= |u.sources|
    ensures Grows(g, s, Zeros(g, s, u, j)) && Zeros(g, s, u, j).count == s.count && Zeros(g, s, u, j).known == s.known
  {
    if j == 0 {
    } else {
      ZerosGrows(g, s, u, j - 1);
    }
  }

  lemma {:induction false} UsesGrows(g: Graph, s: State, uses: seq<Use>, j: nat)
    requires Fits(g, s) && j <= |uses| && forall k :: 0 <= k < |uses| ==> UseFits(g, uses[k])
    ensures Grows(g, s, Uses(g, s, uses, j)) && Uses(g, s, uses, j).count == s.count && Uses(g, s, uses, j).known == s.known
  {
    if j > 0 {
      hide UseStep, Grows;
      UsesGrows(g, s, uses, j - 1);
      var t := Uses(g, s, uses, j - 1);
      UseStepGrows(g, t, uses[j - 1]);
      GrowsTrans(g, s, t, Uses(g, s, uses, j));
    } else {
      assert Grows(g, s, s);
    }
  }

  lemma UseStepGrows(g: Graph, s: State, u: Use)
    requires Fits(g, s) && UseFits(g, u)
    ensures Grows(g, s, UseStep(g, s, u)) && UseStep(g, s, u).count == s.count && UseStep(g, s, u).known == s.known
  {
    ZerosGrows(g, s, u, |u.sources|);
  }

  lemma {:induction false} CircuitGrows(g: Graph, cs: seq<Circuit>, s: State, i: nat)
    requires Fits(g, s) && CircuitsFit(g, cs) && i <= |cs|
    ensures Grows(g, s, CircuitPass(g, cs, s, i)) && CircuitPass(g, cs, s, i).count == s.count
  {
    if i == 0 {
    } else {
      CircuitGrows(g, cs, s, i - 1);
      var t := CircuitPass(g, cs, s, i - 1);
      UsesGrows(g, t, cs[i - 1].uses, |cs[i - 1].uses|);
      GrowsTrans(g, s, t, CircuitPass(g, cs, s, i));
    }
  }

  /** A round never lowers a block count, withdraws an annotation or changes an annotated edge. */
  lemma RoundGrows(g: Graph, cs: seq<Circuit>, s: State)
    requires Fits(g, s) && CircuitsFit(g, cs)
    ensures Grows(g, s, Round(g, cs, s).0)
  {
    hide Grows;
    var s1 := Pass(g, s, true, 0).0;
    var s2 := Pass(g, s1, false, 0).0;
    PassGrows(g, s, true, 0);
    PassGrows(g, s1, false, 0);
    CircuitGrows(g, cs, s2, |cs|);
    GrowsTrans(g, s, s1, s2);
    GrowsTrans(g, s, s2, Round(g, cs, s).0);
  }
}
