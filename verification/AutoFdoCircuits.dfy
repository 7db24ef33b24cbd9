/** What a circuit gives its edges: counts go from a branch back to the merge edges whose constants lead there. */
module AutoFdoCircuits {
  import opened Options
  import opened AutoFdoPropagate
  import opened AutoFdoSettles

  // ----- Which merge edges lead to which branch -----

  /** A block that branches on whether a merge of constants equals, or differs from, 0 or 1: its outgoing edges, each for the
      outcome true or false, and the merge edges with their constants, if they have one. */
  datatype Branch = Branch(block: nat, one: bool, equal: bool, outs: seq<Out>, merges: seq<Merge>)
  datatype Out = Out(edge: nat, taken: bool)
  datatype Merge = Merge(edge: nat, constant: Option<bool>)

  function Xor(a: bool, b: bool): bool {
    a != b
  }

  /** The merge edges kept for an outgoing edge, in order. */
  function Kept(b: Branch, out: Out, k: nat): seq<nat>
    requires k <= |b.merges|
  {
    if k == 0 then []
    else
      var checkOne := Xor(Xor(b.one, b.equal), out.taken);
      var m := b.merges[k - 1];
      if m.constant == None || Xor(checkOne, m.constant.value) then Kept(b, out, k - 1) else Kept(b, out, k - 1) + [m.edge]
  }

  function CircuitOf(b: Branch): Circuit {
    Circuit(b.block, seq(|b.outs|, i requires 0 <= i < |b.outs| => Use(b.outs[i].edge, Kept(b, b.outs[i], |b.merges|))))
  }

  /** The outcome of the branch for the merged constant `v`. */
  predicate Outcome(b: Branch, v: bool) {
    if b.equal then v == b.one else v != b.one
  }

  /** A merge edge is kept for an outgoing edge exactly if it has a constant for which the branch goes there. */
  lemma {:induction false} KeptLeadsThere(b: Branch, out: Out, k: nat, e: nat)
    requires k <= |b.merges|
    ensures e in Kept(b, out, k) <==>
            exists i :: 0 <= i < k && b.merges[i].edge == e && b.merges[i].constant.Some?
                        && Outcome(b, b.merges[i].constant.value) == out.taken
  {
    if k == 0 {
    } else {
      KeptLeadsThere(b, out, k - 1, e);
      var m := b.merges[k - 1];
      if m.edge == e && m.constant.Some? && Outcome(b, m.constant.value) == out.taken {
        assert e in Kept(b, out, k);
      }
    }
  }

  // ----- What is given -----

  lemma {:induction false} ZerosGives(g: Graph, s: State, u: Use, j: nat, e: nat)
    requires Fits(g, s) && UseFits(g, u) && j <= |u.sources| && e < |g.edges| && s.sure[u.edge]
    ensures var t := Zeros(g, s, u, j);
            && t.sure[u.edge] && t.flow[u.edge] == s.flow[u.edge]
            && (if !s.sure[e] && t.sure[e] then e in u.sources && s.flow[u.edge] == 0 && t.flow[e] == 0
                else t.sure[e] == s.sure[e] && t.flow[e] == s.flow[e])
    ensures s.flow[u.edge] == 0 ==> forall k :: 0 <= k < j ==> Zeros(g, s, u, j).sure[u.sources[k]]
  {
    if j == 0 {
    } else {
      ZerosGives(g, s, u, j - 1, e);
      ZerosGives(g, s, u, j - 1, u.edge);
    }
  }

  /** What one use does to an edge. */
  lemma UseGives(g: Graph, s: State, u: Use, e: nat)
    requires Fits(g, s) && UseFits(g, u) && e < |g.edges|
    ensures var t := UseStep(g, s, u);
            if !s.sure[e] && t.sure[e] then
              && s.sure[u.edge] && e in u.sources && t.flow[e] == s.flow[u.edge]
              && (s.flow[u.edge] == 0 || u.sources == [e])
            else t.sure[e] == s.sure[e] && t.flow[e] == s.flow[e]
    ensures s.sure[u.edge] ==> UseDone(g, UseStep(g, s, u), u)
  {
    if s.sure[u.edge] {
      hide Zeros;
      ZerosGives(g, s, u, |u.sources|, e);
      ZerosGives(g, s, u, |u.sources|, u.edge);
      if |u.sources| == 1 { ZerosGives(g, s, u, 1, u.sources[0]); }
    }
  }

  /** Nothing is left to take back through the use. */
  ghost predicate UseDone(g: Graph, t: State, u: Use)
    requires Fits(g, t) && UseFits(g, u)
  {
    && (t.flow[u.edge] == 0 ==> forall k :: 0 <= k < |u.sources| ==> t.sure[u.sources[k]])
    && (|u.sources| == 1 ==> t.sure[u.sources[0]])
  }

  lemma DoneStays(g: Graph, s: State, t: State, u: Use)
    requires Fits(g, s) && Fits(g, t) && UseFits(g, u) && Grows(g, s, t) && s.sure[u.edge] && UseDone(g, s, u)
    ensures UseDone(g, t, u)
  {
  }

  lemma {:induction false} UsesGive(g: Graph, s: State, uses: seq<Use>, j: nat, e: nat) returns (k: nat)
    requires Fits(g, s) && j <= |uses| && (forall k :: 0 <= k < |uses| ==> UseFits(g, uses[k]))
    requires e < |g.edges| && !s.sure[e] && Uses(g, s, uses, j).sure[e]
    ensures k < j && Given(g, Uses(g, s, uses, j), uses[k], e)
  {
    hide UseStep;
    var t, t' := Uses(g, s, uses, j - 1), Uses(g, s, uses, j);
    UseStepGrows(g, t, uses[j - 1]);
    if t.sure[e] {
      k := UsesGive(g, s, uses, j - 1, e);
      GivenStays(g, t, t', uses[k], e);
    } else {
      k := j - 1;
      UseGives(g, t, uses[j - 1], e);
    }
  }

  /** Edge `e` is annotated with the count of the use's edge, which is 0 or has it as its only source. */
  ghost predicate Given(g: Graph, t: State, u: Use, e: nat)
    requires Fits(g, t) && UseFits(g, u) && e < |g.edges|
  {
    && t.sure[u.edge] && t.sure[e] && e in u.sources && t.flow[e] == t.flow[u.edge]
    && (t.flow[u.edge] == 0 || u.sources == [e])
  }

  lemma GivenStays(g: Graph, s: State, t: State, u: Use, e: nat)
    requires Fits(g, s) && Fits(g, t) && UseFits(g, u) && e < |g.edges| && Grows(g, s, t) && Given(g, s, u, e)
    ensures Given(g, t, u, e)
  {
  }

  /** An edge that the circuits annotate is a source of a use of an annotated block; the use's edge is annotated, and gives it
      its count: the use's edge has count 0, or the edge is its only source. */
  lemma {:induction false} CircuitGives(g: Graph, cs: seq<Circuit>, s: State, i: nat, e: nat) returns (c: nat, k: nat)
    requires Fits(g, s) && CircuitsFit(g, cs) && i <= |cs| && e < |g.edges|
    requires !s.sure[e] && CircuitPass(g, cs, s, i).sure[e]
    ensures c < i && k < |cs[c].uses| && s.known[cs[c].block] && Given(g, CircuitPass(g, cs, s, i), cs[c].uses[k], e)
    decreases i
  {
    hide Uses, Given, Grows;
    var t, t' := CircuitPass(g, cs, s, i - 1), CircuitPass(g, cs, s, i);
    CircuitKnown(g, cs, s, i - 1);
    var uses := cs[i - 1].uses;
    if t.sure[e] {
      c, k := CircuitGives(g, cs, s, i - 1, e);
      if t.known[cs[i - 1].block] {
        UsesGrows(g, t, uses, |uses|);
        GivenStays(g, t, t', cs[c].uses[k], e);
      }
    } else {
      c := i - 1;
      k := UsesGive(g, t, uses, |uses|, e);
    }
  }

  lemma {:induction false} UsesDone(g: Graph, s: State, uses: seq<Use>, j: nat, k: nat)
    requires Fits(g, s) && k < j <= |uses| && (forall i :: 0 <= i < |uses| ==> UseFits(g, uses[i]))
    requires UseFits(g, uses[k]) && s.sure[uses[k].edge]
    ensures UseDone(g, Uses(g, s, uses, j), uses[k])
  {
    hide UseStep, UseDone;
    var t := Uses(g, s, uses, j - 1);
    UsesGrows(g, s, uses, j - 1);
    UseStepGrows(g, t, uses[j - 1]);
    if k == j - 1 {
      UseGives(g, t, uses[k], 0);
    } else {
      UsesDone(g, s, uses, j - 1, k);
      DoneStays(g, t, Uses(g, s, uses, j), uses[k]);
    }
  }

  /** Conversely, after the circuits no use of an annotated block whose edge was annotated at the start has an unannotated only
      source, or any unannotated source where its count is 0. */
  lemma {:induction false} CircuitTakesAll(g: Graph, cs: seq<Circuit>, s: State, i: nat, c: nat, k: nat)
    requires Fits(g, s) && CircuitsFit(g, cs) && c < i <= |cs| && k < |cs[c].uses|
    requires s.known[cs[c].block] && s.sure[cs[c].uses[k].edge]
    ensures UseDone(g, CircuitPass(g, cs, s, i), cs[c].uses[k])
  {
    hide Uses, UseDone;
    var t := CircuitPass(g, cs, s, i - 1);
    CircuitKnown(g, cs, s, i - 1);
    CircuitGrows(g, cs, s, i - 1);
    var uses := cs[i - 1].uses;
    if c == i - 1 {
      UsesDone(g, t, uses, |uses|, k);
    } else {
      CircuitTakesAll(g, cs, s, i - 1, c, k);
      if t.known[cs[i - 1].block] {
        UsesGrows(g, t, uses, |uses|);
        DoneStays(g, t, CircuitPass(g, cs, s, i), cs[c].uses[k]);
      }
    }
  }

  // ----- The order of a round -----

  /** While no block before it has work on its outgoing side, a block is visited in the state the round started from. */
  lemma {:induction false} PassSkips(g: Graph, s: State, out: bool, i: nat, k: nat)
    requires Fits(g, s) && i <= k <= |g.order| && forall j :: i <= j < k ==> QuietSide(g, s, g.order[j], out)
    ensures Pass(g, s, out, i).0 == Pass(g, s, out, k).0
    decreases k - i
  {
    hide QuietSide;
    if i == k {
    } else {
      VisitMeasure(g, s, out, g.order[i]);
      VisitQuiet(g, s, out, g.order[i]);
      PassSkips(g, s, out, i + 1, k);
    }
  }

  /** A round looks at outgoing sides first, in the order of the blocks: the first block with exactly one unknown outgoing edge,
      and no work before it, gives that edge what its count leaves over at the start of the round. */
  lemma FirstOutgoingEdge(g: Graph, cs: seq<Circuit>, s: State, k: nat)
    requires Fits(g, s) && CircuitsFit(g, cs) && k < |g.order|
    requires forall j :: 0 <= j < k ==> QuietSide(g, s, g.order[j], true)
    requires s.known[g.order[k]] && Unknown(g, s, g.order[k], true, |g.edges|) == 1
    ensures var b, m, t := g.order[k], |g.edges|, Round(g, cs, s).0;
            var e, total := Missing(g, s, b, true, m), Total(g, s, b, true, m);
            t.sure[e] && t.flow[e] == if s.count[b] > total then s.count[b] - total else 0
  {
    hide Grows, CircuitPass, QuietSide;
    PassSkips(g, s, true, 0, k);
    var b := g.order[k];
    var s1 := Visit(g, s, true, b).0;
    assert Pass(g, s, true, k).0 == Pass(g, s1, true, k + 1).0;
    PassGrows(g, s1, true, k + 1);
    var s2 := Pass(g, s, true, 0).0;
    var s3 := Pass(g, s2, false, 0).0;
    PassGrows(g, s2, false, 0);
    CircuitGrows(g, cs, s3, |cs|);
    GrowsTrans(g, s1, s2, s3);
    GrowsTrans(g, s1, s3, Round(g, cs, s).0);
    SureStays(g, s1, Round(g, cs, s).0, Missing(g, s, b, true, |g.edges|));
  }

  lemma SureStays(g: Graph, s: State, t: State, e: nat)
    requires Fits(g, s) && Fits(g, t) && Grows(g, s, t) && e < |g.edges| && s.sure[e]
    ensures t.sure[e] && t.flow[e] == s.flow[e]
  {
  }

  /** Only then at incoming sides: with no work on any outgoing side, the first block with exactly one unknown incoming edge gives
      that edge what its count leaves over. */
  lemma FirstIncomingEdge(g: Graph, cs: seq<Circuit>, s: State, k: nat)
    requires Fits(g, s) && CircuitsFit(g, cs) && k < |g.order|
    requires (forall j :: 0 <= j < |g.order| ==> QuietSide(g, s, g.order[j], true))
    requires (forall j :: 0 <= j < k ==> QuietSide(g, s, g.order[j], false))
    requires s.known[g.order[k]] && Unknown(g, s, g.order[k], false, |g.edges|) == 1
    ensures var b, m, t := g.order[k], |g.edges|, Round(g, cs, s).0;
            var e, total := Missing(g, s, b, false, m), Total(g, s, b, false, m);
            t.sure[e] && t.flow[e] == if s.count[b] > total then s.count[b] - total else 0
  {
    hide Grows, CircuitPass, QuietSide;
    PassSkips(g, s, true, 0, |g.order|);
    PassSkips(g, s, false, 0, k);
    var b := g.order[k];
    var s1 := Visit(g, s, false, b).0;
    assert Pass(g, s, false, k).0 == Pass(g, s1, false, k + 1).0;
    PassGrows(g, s1, false, k + 1);
    var s3 := Pass(g, s, false, 0).0;
    CircuitGrows(g, cs, s3, |cs|);
    GrowsTrans(g, s1, s3, Round(g, cs, s).0);
    SureStays(g, s1, Round(g, cs, s).0, Missing(g, s, b, false, |g.edges|));
  }
}
