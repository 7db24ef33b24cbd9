/** Propagation as it works in place on blocks and edges. */
module AutoFdoObject {
  import opened AutoFdoPropagate
  import opened AutoFdoSettles

  class Propagation {
    var count: seq<nat>
    var known: seq<bool>
    var flow: seq<nat>
    var sure: seq<bool>

    ghost function Now(): State
      reads this
    {
      State(count, known, flow, sure)
    }

    constructor (s: State)
      ensures Now() == s
    {
      count, known, flow, sure := s.count, s.known, s.flow, s.sure;
    }

    /** One pass of the edge rules over the blocks. */
    method PropagateEdge(g: Graph, out: bool) returns (changed: bool)
      requires Fits(g, Now())
      modifies this
      ensures (Now(), changed) == Pass(g, old(Now()), out, 0)
    {
      hide Visit;
      changed := false;
      var i := 0;
      while i < |g.order|
        invariant i <= |g.order| && Fits(g, Now())
        invariant Pass(g, old(Now()), out, 0) == (Pass(g, Now(), out, i).0, changed || Pass(g, Now(), out, i).1)
      {
        var c := VisitBlock(g, out, g.order[i]);
        changed := changed || c;
        i := i + 1;
      }
    }

    method VisitBlock(g: Graph, out: bool, b: nat) returns (changed: bool)
      requires Fits(g, Now()) && b < g.blocks
      modifies this
      ensures (Now(), changed) == Visit(g, old(Now()), out, b)
    {
      var unknown, total, missing := 0, 0, 0;
      var e := 0;
      while e < |g.edges|
        invariant e <= |g.edges| && Now() == old(Now())
        invariant unknown == Unknown(g, Now(), b, out, e) && total == Total(g, Now(), b, out, e)
        invariant unknown > 0 ==> missing == Missing(g, Now(), b, out, e)
      {
        if OnSide(g, b, out, e) {
          if !sure[e] {
            unknown, missing := unknown + 1, e;
          } else {
            total := total + flow[e];
          }
        }
        e := e + 1;
      }
      changed := false;
      if unknown == 0 && total > count[b] {
        count := count[b := total];
        known := known[b := true];
        changed := true;
      } else if unknown == 1 && known[b] {
        if count[b] > total {
          flow := flow[missing := count[b] - total];
        } else {
          flow := flow[missing := 0];
        }
        sure := sure[missing := true];
        changed := true;
      }
    }

    /** Takes known outgoing edges back through merges of constants. */
    method PropagateCircuit(g: Graph, cs: seq<Circuit>)
      requires Fits(g, Now()) && CircuitsFit(g, cs)
      modifies this
      ensures Now() == CircuitPass(g, cs, old(Now()), |cs|)
    {
      var i := 0;
      while i < |cs|
        invariant i <= |cs| && Fits(g, Now()) && Now() == CircuitPass(g, cs, old(Now()), i)
      {
        if known[cs[i].block] {
          ghost var start := Now();
          var uses, j := cs[i].uses, 0;
          while j < |uses|
            invariant j <= |uses| && Fits(g, Now()) && Now() == Uses(g, start, uses, j)
          {
            assert UseFits(g, cs[i].uses[j]);
            TakeUse(g, uses[j]);
            j := j + 1;
          }
        }
        i := i + 1;
      }
    }

    method TakeUse(g: Graph, u: Use)
      requires Fits(g, Now()) && UseFits(g, u)
      modifies this
      ensures Now() == UseStep(g, old(Now()), u)
    {
      if !sure[u.edge] { return; }
      var total, only, j := 0, 0, 0;
      while j < |u.sources|
        invariant j <= |u.sources| && total == j && (j > 0 ==> only == u.sources[j - 1])
        invariant Fits(g, Now()) && Now() == Zeros(g, old(Now()), u, j)
      {
        var source := u.sources[j];
        total, only := total + 1, source;
        if flow[u.edge] == 0 && !sure[source] {
          flow := flow[source := 0];
          sure := sure[source := true];
        }
        j := j + 1;
      }
      if total == 1 && !sure[only] {
        flow := flow[only := flow[u.edge]];
        sure := sure[only := true];
      }
    }

    /** Rounds until one reports no change, at most ten.  No count falls and no annotation is lost; where a round did report no
        change, the outcome is that of propagation without a cap. */
    method Propagate(g: Graph, cs: seq<Circuit>) returns (stopped: bool)
      requires Fits(g, Now()) && CircuitsFit(g, cs)
      modifies this
      ensures (Now(), stopped) == Capped(g, cs, old(Now()), 10)
      ensures Fits(g, Now()) && Grows(g, old(Now()), Now())
      ensures stopped ==> Now() == Uncapped(g, cs, old(Now()))
    {
      hide Grows, Pass, CircuitPass;
      var changed, i := true, 0;
      stopped := false;
      while changed && i < 10
        invariant i <= 10 && Fits(g, Now()) && stopped == !changed
        invariant Capped(g, cs, old(Now()), 10) == if changed then Capped(g, cs, Now(), 10 - i) else (Now(), true)
      {
        changed := false;
        var c := PropagateEdge(g, true);
        if c { changed := true; }
        c := PropagateEdge(g, false);
        if c { changed := true; }
        PropagateCircuit(g, cs);
        stopped := !changed;
        i := i + 1;
      }
      CappedGrows(g, cs, old(Now()), 10);
      if stopped { CappedIsUncapped(g, cs, old(Now()), 10); }
    }
  }
}
