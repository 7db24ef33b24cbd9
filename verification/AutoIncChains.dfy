/** A condition on the block alone under which the pass preserves its meaning: no addition goes on from the result of another. */
module AutoIncChains {
  import opened Options
  import opened Rtl
  import opened AutoIncMerge
  import opened AutoIncArrays
  import opened AutoIncApprove
  import opened AutoIncSearch
  import opened AutoIncPass

  /** The result of an addition into another register is not added to anywhere in the block. */
  predicate Unchained(insns: seq<Insn>) {
    forall i, j :: 0 <= i < |insns| && 0 <= j < |insns| && insns[i].Add? && insns[j].Add? && insns[i].res != insns[i].reg0 ==>
      insns[j].reg0 != insns[i].res
  }

  /** An addition to one of the registers `s`, and into none of them unless in place. */
  predicate AddsTo(i: Insn, s: set<Reg>) {
    i.Add? ==> i.reg0 in s && (i.res != i.reg0 ==> i.res !in s)
  }

  predicate AllAddTo(insns: seq<Insn>, s: set<Reg>) {
    forall i :: 0 <= i < |insns| ==> AddsTo(insns[i], s)
  }

  predicate NodeAddsTo(n: Node, s: set<Reg>) {
    AddsTo(n.insn, s) && (n.lead.Lead? ==> n.lead.src in s)
  }

  predicate NodesAddTo(ns: seq<Node>, s: set<Reg>) {
    forall i :: 0 <= i < |ns| ==> NodeAddsTo(ns[i], s)
  }

  /** Additions, leading copies and recorded additions are all about the registers `s`. */
  ghost predicate About(st: Point, s: set<Reg>) {
    NodesAddTo(st.nodes, s) && forall r :: r in st.arrays.inc ==> r in s
  }

  // ----- One step -----

  lemma EnterInc(a: Arrays, i: Insn, uid: nat, isAdd: bool, r: Reg)
    ensures r in Enter(a, i, uid, isAdd).inc ==> r in a.inc || (isAdd && i.Uses(r))
  {
    EnterEntered(a, i, uid, isAdd);
    assert Entry(Enter(a, i, uid, isAdd).inc, r) ==
           if i.Uses(r) && isAdd then Some(uid) else if i.Refs(r) then None else Entry(a.inc, r);
  }

  lemma EnterOnlyAbout(cfg: Config, st: Point, p: nat, s: set<Reg>)
    requires p < |st.nodes| && About(st, s)
    ensures About(EnterOnly(cfg, st, p), s)
  {
    hide Enter;
    var n := st.nodes[p];
    forall r | r in EnterOnly(cfg, st, p).arrays.inc ensures r in s {
      EnterInc(st.arrays, n.insn, n.uid, Parses(n.insn, cfg.frame), r);
      assert NodeAddsTo(n, s);
    }
  }

  lemma RemoveAddTo(ns: seq<Node>, p: nat, s: set<Reg>)
    requires p < |ns| && NodesAddTo(ns, s)
    ensures NodesAddTo(Remove(ns, p), s)
  {
    forall i | 0 <= i < |Remove(ns, p)| ensures NodeAddsTo(Remove(ns, p)[i], s) {
      assert Remove(ns, p)[i] == if i < p then ns[i] else ns[i + 1];
    }
  }

  lemma PreMergedAbout(cfg: Config, ns: seq<Node>, p: nat, j: nat, k: nat, mov: nat, s: set<Reg>)
    requires p < j < |ns| && ns[p].insn.Add? && ns[j].insn.Op? && k < |ns[j].insn.mems| && ns[j].insn.mems[k].addr.Disp?
    requires NodesAddTo(ns, s)
    ensures NodesAddTo(PreMerged(cfg, ns, p, j, k, mov), s)
  {
    hide PreOperand;
    var m := PreOperand(cfg, ns, p, j, k);
    assert NodeAddsTo(ns[j], s);
    if ns[p].insn.res == ns[p].insn.reg0 {
      RemoveAddTo(ns[j := ns[j].(insn := WithOperand(ns[j].insn, k, m))], p, s);
    }
  }

  lemma PostMergedAbout(cfg: Config, ns: seq<Node>, p: nat, q: nat, k: nat, s: set<Reg>)
    requires p < q < |ns| && ns[q].insn.Add? && ns[p].insn.Op? && k < |ns[p].insn.mems| && ns[p].insn.mems[k].addr.Disp?
    requires NodesAddTo(ns, s)
    ensures NodesAddTo(PostMerged(cfg, ns, p, q, k), s) && p < |PostMerged(cfg, ns, p, q, k)|
  {
    hide PostOperand;
    var m, add := PostOperand(cfg, ns, p, q, k), ns[q].insn;
    var i := WithOperand(ns[p].insn, k, m);
    assert NodeAddsTo(ns[p], s) && NodeAddsTo(ns[q], s);
    if add.res == add.reg0 {
      RemoveAddTo(ns[p := ns[p].(insn := i)], q, s);
    } else {
      RemoveAddTo(ns[p := Node(ns[p].uid, Lead(add.res, add.reg0), i)], q, s);
    }
  }

  lemma CommitPostAbout(cfg: Config, st: Point, p: nat, q: nat, k: nat, s: set<Reg>)
    requires PostApproved(cfg, st.nodes, p, st.arrays, q, k) && About(st, s)
    ensures About(CommitPost(cfg, st, p, q, k), s)
  {
    hide Enter, PostMerged, NodesAddTo;
    PostMergedAbout(cfg, st.nodes, p, q, k, s);
    var merged := PostMerged(cfg, st.nodes, p, q, k);
    var a := PatchPost(st.arrays, st.nodes[q].insn, st.nodes[q].uid, st.nodes[p].uid);
    forall r | r in CommitPost(cfg, st, p, q, k).arrays.inc ensures r in s {
      EnterInc(a, merged[p].insn, st.nodes[p].uid, false, r);
    }
  }

  lemma VisitAbout(cfg: Config, st: Point, p: nat, s: set<Reg>)
    requires p < |st.nodes| && About(st, s)
    ensures About(Visit(cfg, st, p).0, s)
  {
    hide PreMerged, Enter, PostMerged, NodesAddTo;
    if IsAddAt(cfg, st.nodes, p) {
      var byResult, bySource := FindResultUse(cfg, st.nodes, p, st.arrays), FindSourceUse(cfg, st.nodes, p, st.arrays);
      if byResult.Some? {
        PreMergedAbout(cfg, st.nodes, p, byResult.value.0, byResult.value.1, st.limit, s);
      } else if bySource.Some? {
        PreMergedAbout(cfg, st.nodes, p, bySource.value.0, bySource.value.1, st.limit, s);
      } else {
        EnterOnlyAbout(cfg, st, p, s);
      }
    } else {
      var found := FindInc(cfg, st, p);
      if found.Some? {
        CommitPostAbout(cfg, st, p, found.value.0, found.value.1, s);
      } else {
        EnterOnlyAbout(cfg, st, p, s);
      }
    }
  }

  lemma AboutIsClean(cfg: Config, st: Point, p: nat, s: set<Reg>)
    requires p < |st.nodes| && About(st, s)
    ensures CleanStep(cfg, st, p)
  {
    if IsAddAt(cfg, st.nodes, p) {
      var bySource := FindSourceUse(cfg, st.nodes, p, st.arrays);
      if bySource.Some? {
        assert NodeAddsTo(st.nodes[p], s) && NodeAddsTo(st.nodes[bySource.value.0], s);
      }
    }
  }

  // ----- Scans and the whole pass -----

  lemma {:induction false} ScanAbout(cfg: Config, st: Point, p: nat, s: set<Reg>)
    requires p <= |st.nodes| && About(st, s)
    ensures CleanScan(cfg, st, p) && About(ScanFrom(cfg, st, p).0, s)
    decreases p
  {
    hide Visit, About, CleanStep;
    if p == 0 {
    } else {
      AboutIsClean(cfg, st, p - 1, s);
      VisitAbout(cfg, st, p - 1, s);
      ScanAbout(cfg, Visit(cfg, st, p - 1).0, p - 1, s);
    }
  }

  lemma {:induction false} FlattenAddTo(ns: seq<Node>, s: set<Reg>)
    requires NodesAddTo(ns, s)
    ensures AllAddTo(Flatten(ns), s)
  {
    if ns == [] {
    } else {
      assert NodeAddsTo(ns[0], s);
      FlattenAddTo(ns[1..], s);
    }
  }

  lemma {:induction false} AddToPreserved(cfg: Config, insns: seq<Insn>, s: set<Reg>)
    requires cfg.Valid() && AllAddTo(insns, s)
    ensures CleanRun(cfg, insns)
    decreases AddCount(Numbered(insns, 0))
  {
    hide CleanScan, ScanFrom;
    ScanAbout(cfg, Start(insns), |insns|, s);
    var (end, successes) := Scanned(cfg, insns);
    if successes == 0 {
    } else {
      ScanCounts(cfg, insns);
      FlattenAddTo(end.nodes, s);
      AddToPreserved(cfg, Flatten(end.nodes), s);
    }
  }

  /** On every target the pass preserves the meaning of every block in which no addition goes on from the result of an addition
      into another register. */
  lemma UnchainedPreservesMeaning(cfg: Config, insns: seq<Insn>)
    requires cfg.Valid() && Unchained(insns)
    ensures CleanRun(cfg, insns) && SameProgram(insns, MergeInBlock(cfg, insns))
  {
    hide CleanRun, SameProgram, MergeInBlock;
    var s := set i | 0 <= i < |insns| && insns[i].Add? :: insns[i].reg0;
    AddToPreserved(cfg, insns, s);
    MergePreservesMeaning(cfg, insns);
  }
}
