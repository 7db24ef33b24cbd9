/** Opportunities that come after a merge in the same scan: what the patched arrays never lose. */
module AutoIncComplete {
  import opened Options
  import opened Rtl
  import opened AutoIncTable
  import opened AutoIncMerge
  import opened AutoIncArrays
  import opened AutoIncApprove
  import opened AutoIncPatch
  import opened AutoIncSearch
  import opened AutoIncPass
  import opened AutoIncChances

  /** If the first mention of a register is an addition to it, both arrays of uses say so. */
  ghost predicate Complete(t: seq<Node>, a: Arrays, frame: Reg) {
    forall r :: CompleteFor(t, a, r, frame)
  }

  predicate CompleteFor(t: seq<Node>, a: Arrays, r: Reg, frame: Reg) {
    var n := NextRef(t, r);
    n.Some? && Parses(n.value.insn, frame) && n.value.insn.reg0 == r ==>
      Entry(a.use, r) == Some(n.value.uid) && Entry(a.inc, r) == Some(n.value.uid)
  }

  // ----- Every step keeps it -----

  lemma EnterComplete(cfg: Config, n: Node, t: seq<Node>, a: Arrays, b: Arrays)
    requires Complete(t, a, cfg.frame) && Entered(a, b, n.insn, n.uid, Parses(n.insn, cfg.frame))
    ensures Complete([n] + t, b, cfg.frame)
  {
    Prepend(n, t);
    forall r ensures CompleteFor([n] + t, b, r, cfg.frame) {
      assert CompleteFor(t, a, r, cfg.frame);
    }
  }

  lemma EnterOnlyComplete(cfg: Config, st: Point, p: nat)
    requires p < |st.nodes| && Complete(st.nodes[p + 1..], st.arrays, cfg.frame)
    ensures Complete(st.nodes[p..], EnterOnly(cfg, st, p).arrays, cfg.frame)
  {
    var n := st.nodes[p];
    EnterEntered(st.arrays, n.insn, n.uid, Parses(n.insn, cfg.frame));
    assert st.nodes[p..] == [n] + st.nodes[p + 1..];
    EnterComplete(cfg, n, st.nodes[p + 1..], st.arrays, EnterOnly(cfg, st, p).arrays);
  }

  /** Changing operand `k` from one base to another is noticed by these two registers only. */
  lemma OperandChange(n: Node, k: nat, m: MemRef, r: Reg)
    requires n.insn.Op? && k < |n.insn.mems| && !m.addr.Index? && n.insn.mems[k].addr.Disp?
    requires r != m.addr.base && r != n.insn.mems[k].addr.base
    ensures n.(insn := WithOperand(n.insn, k, m)).Refs(r) == n.Refs(r)
  {
    var i, i' := n.insn, WithOperand(n.insn, k, m);
    assert i'.Uses(r) == i.Uses(r) by {
      if i.Uses(r) && r !in i.uses {
        var x :| 0 <= x < |i.mems| && i.mems[x].addr.Mentions(r);
        assert i'.mems[x].addr.Mentions(r);
      }
      if i'.Uses(r) && r !in i.uses {
        var x :| 0 <= x < |i'.mems| && i'.mems[x].addr.Mentions(r);
        assert i.mems[x].addr.Mentions(r);
      }
    }
    assert i'.Defs(r) == i.Defs(r) by {
      if i.Defs(r) && r !in i.defs {
        var x :| 0 <= x < |i.mems| && i.mems[x].addr.IsAuto() && i.mems[x].addr.base == r;
        assert i'.mems[x].addr.IsAuto() && i'.mems[x].addr.base == r;
      }
      if i'.Defs(r) && r !in i.defs {
        var x :| 0 <= x < |i'.mems| && i'.mems[x].addr.IsAuto() && i'.mems[x].addr.base == r;
        assert i.mems[x].addr.IsAuto() && i.mems[x].addr.base == r;
      }
    }
  }

  /** Changing an access does not make or hide an addition as first mention, if both or neither mention the register. */
  lemma {:induction false} ChangeComplete(t: seq<Node>, j: nat, n: Node, r: Reg)
    requires j < |t| && t[j].insn.Op? && n.insn.Op? && n.Refs(r) == t[j].Refs(r)
    ensures NextRef(t[j := n], r).Some? == NextRef(t, r).Some?
    ensures NextRef(t, r).Some? && !NextRef(t[j := n], r).value.insn.Op? ==> NextRef(t[j := n], r) == NextRef(t, r)
  {
    if j == 0 {
      assert t[j := n][1..] == t[1..];
    } else {
      assert t[j := n][1..] == t[1..][j - 1 := n];
      ChangeComplete(t[1..], j - 1, n, r);
    }
  }

  lemma PreIncComplete(cfg: Config, ns: seq<Node>, p: nat, a: Arrays, j: nat, k: nat, m: MemRef)
    requires WellFormed(ns) && p < j < |ns| && Complete(ns[p + 1..], a, cfg.frame)
    requires ns[p].insn.Add? && ns[p].insn.res == ns[p].insn.reg0
    requires EntryAt(ns, p, a.use, ns[p].insn.res) == j && PlainAt(ns[j].insn, k, ns[p].insn.res)
    requires m.addr.IsAuto() && m.addr.base == ns[p].insn.res
    ensures Complete(PreIncMerge(ns, p, j, k, m)[p..], PatchPreInc(a, ns[p].insn, ns[j].uid), cfg.frame)
  {
    var t, res, x := ns[p + 1..], ns[p].insn.res, j - p - 1;
    var acc := ns[j].(insn := WithOperand(ns[j].insn, k, m));
    var t', b := t[x := acc], PatchPreInc(a, ns[p].insn, ns[j].uid);
    assert PreIncMerge(ns, p, j, k, m)[p..] == t';
    assert t[x] == ns[j];
    forall r ensures CompleteFor(t', b, r, cfg.frame) {
      assert CompleteFor(t, a, r, cfg.frame);
      if r == res {
        assert t[x].insn.mems[k].addr.Mentions(r) && acc.insn.mems[k].addr.Mentions(r);
        assert t[x].Refs(r) && acc.Refs(r);
        AccessFirst(ns, p, a, r, j, cfg.frame);
      } else {
        OperandChange(ns[j], k, m, r);
      }
      ChangeComplete(t, x, acc, r);
    }
  }

  /** If the entry of `r` points to an access, its first mention is not an addition to it. */
  lemma AccessFirst(ns: seq<Node>, p: nat, a: Arrays, r: Reg, j: nat, frame: Reg)
    requires WellFormed(ns) && p < |ns| && EntryAt(ns, p, a.use, r) == j && ns[j].insn.Op?
    requires CompleteFor(ns[p + 1..], a, r, frame) && ns[j].Refs(r)
    ensures var n := NextRef(ns[p + 1..], r); n.Some? && !(Parses(n.value.insn, frame) && n.value.insn.reg0 == r)
  {
    var t := ns[p + 1..];
    assert t[j - p - 1] == ns[j];
    if NextRef(t, r) == None { NoRefAtAll(t, r); }
    NextRefIn(t, r);
    var i :| 0 <= i < |t| && t[i] == NextRef(t, r).value;
    assert ns[i + p + 1] == t[i];
  }

  /** A copy is left at the place of the addition; the access may have had either register as base. */
  lemma PreAddComplete(cfg: Config, ns: seq<Node>, p: nat, a: Arrays, j: nat, k: nat, m: MemRef, mov: nat)
    requires p < j < |ns| && Complete(ns[p + 1..], a, cfg.frame) && ns[p].insn.Add?
    requires PlainAt(ns[j].insn, k, ns[p].insn.res) || PlainAt(ns[j].insn, k, ns[p].insn.reg0)
    requires m.addr.IsAuto() && m.addr.base == ns[p].insn.res
    ensures Complete(PreAddMerge(ns, p, j, k, m, mov)[p..], PatchPreAdd(a, ns[p].insn, mov), cfg.frame)
  {
    var t, add, x := ns[p + 1..], ns[p].insn, j - p - 1;
    var acc := ns[j].(insn := WithOperand(ns[j].insn, k, m));
    var n := Node(mov, NoLead, Move(add.res, add.reg0));
    var t', b := [n] + t[x := acc], PatchPreAdd(a, add, mov);
    assert PreAddMerge(ns, p, j, k, m, mov)[p..] == t';
    Prepend(n, t[x := acc]);
    forall r ensures CompleteFor(t', b, r, cfg.frame) {
      assert CompleteFor(t, a, r, cfg.frame);
      if r != add.res && r != add.reg0 {
        OperandChange(ns[j], k, m, r);
        ChangeComplete(t, x, acc, r);
      }
    }
  }

  /** The access at `p` took over the addition at `q`; afterwards it mentions both registers of it. */
  lemma PostComplete(cfg: Config, t: seq<Node>, a: Arrays, q: nat, n: Node, b: Arrays)
    requires Complete(t, a, cfg.frame) && q < |t| && t[q].insn.Add? && t[q].lead == NoLead && n.insn.Op?
    requires n.Refs(t[q].insn.res) && n.Refs(t[q].insn.reg0)
    requires Entered(PatchPost(a, t[q].insn, t[q].uid, n.uid), b, n.insn, n.uid, false)
    ensures Complete([n] + Remove(t, q), b, cfg.frame)
  {
    Prepend(n, Remove(t, q));
    forall r ensures CompleteFor([n] + Remove(t, q), b, r, cfg.frame) {
      assert CompleteFor(t, a, r, cfg.frame);
      if !n.Refs(r) { RemoveSame(t, q, r); }
    }
  }

  /** The new operand updates the result of the addition. */
  lemma NewRefUpdates(cfg: Config, add: Insn, disp: int, m: MemRef, form: Form, r: Reg, addUid: nat, memUid: nat)
    requires add.Add? && Permits(cfg, add, disp, m, form, r, addUid, memUid)
    ensures NewRef(cfg, add, disp, m, form, r).addr.IsAuto() && NewRef(cfg, add, disp, m, form, r).addr.base == r
  {
  }

  lemma ResultComplete(cfg: Config, st: Point, p: nat, j: nat, k: nat)
    requires WellFormed(st.nodes) && p < |st.nodes| && Complete(st.nodes[p + 1..], st.arrays, cfg.frame)
    requires PreApproved(cfg, st.nodes, p, st.arrays, j, k)
    ensures var st' := CommitResult(cfg, st, p, j, k); Complete(st'.nodes[p..], st'.arrays, cfg.frame)
  {
    hide Permits, NewRef, WellFormed, Complete;
    var ns, add, m := st.nodes, st.nodes[p].insn, st.nodes[j].insn.mems[k];
    NewRefUpdates(cfg, add, m.addr.off, m, PreForm(add), add.res, ns[p].uid, ns[j].uid);
    if add.res == add.reg0 {
      PreIncComplete(cfg, ns, p, st.arrays, j, k, PreOperand(cfg, ns, p, j, k));
    } else {
      PreAddComplete(cfg, ns, p, st.arrays, j, k, PreOperand(cfg, ns, p, j, k), st.limit);
    }
  }

  lemma SourceComplete(cfg: Config, st: Point, p: nat, j: nat, k: nat)
    requires p < |st.nodes| && Complete(st.nodes[p + 1..], st.arrays, cfg.frame)
    requires SourceApproved(cfg, st.nodes, p, st.arrays, j, k)
    ensures var st' := CommitSource(cfg, st, p, j, k); Complete(st'.nodes[p..], st'.arrays, cfg.frame)
  {
    hide Permits, NewRef, Complete;
    var ns, add, m := st.nodes, st.nodes[p].insn, st.nodes[j].insn.mems[k];
    NewRefUpdates(cfg, add, -add.val, m, FormPreAdd, add.res, ns[p].uid, ns[j].uid);
    PreAddComplete(cfg, ns, p, st.arrays, j, k, PreOperand(cfg, ns, p, j, k), st.limit);
  }

  lemma AccessComplete(cfg: Config, st: Point, p: nat, q: nat, k: nat)
    requires WellFormed(st.nodes) && p < |st.nodes| && Complete(st.nodes[p + 1..], st.arrays, cfg.frame)
    requires PostApproved(cfg, st.nodes, p, st.arrays, q, k) && st.nodes[q].insn.reg0 == st.nodes[p].insn.mems[k].addr.base
    ensures var st' := CommitPost(cfg, st, p, q, k); Complete(st'.nodes[p..], st'.arrays, cfg.frame)
  {
    hide Permits, NewRef, Complete, Enter, PatchPost, Occurrences;
    var ns, add, m := st.nodes, st.nodes[q].insn, st.nodes[p].insn.mems[k];
    var t, x, merged := ns[p + 1..], q - p - 1, PostMerged(cfg, ns, p, q, k);
    NewRefUpdates(cfg, add, m.addr.off, m, PostForm(add), add.res, ns[q].uid, ns[p].uid);
    assert LeadOk(ns[q]) && t[x] == ns[q];
    assert merged[p..] == [merged[p]] + Remove(t, x);
    OperandUses(merged[p], k);
    var patched := PatchPost(st.arrays, add, ns[q].uid, ns[p].uid);
    EnterEntered(patched, merged[p].insn, ns[p].uid, false);
    PostComplete(cfg, t, st.arrays, x, merged[p], Enter(patched, merged[p].insn, ns[p].uid, false));
  }

  /** On sound arrays every step, also one that merges, keeps what is known about additions. */
  lemma VisitComplete(cfg: Config, st: Point, p: nat)
    requires Ready(cfg, st.nodes, p, st.arrays) && Complete(st.nodes[p + 1..], st.arrays, cfg.frame)
    ensures var st' := Visit(cfg, st, p).0; Complete(st'.nodes[p..], st'.arrays, cfg.frame)
  {
    hide Complete, PreApproved, SourceApproved, Enter, PostMerged, PreMerged, Permits, Occurrences;
    var ns, a := st.nodes, st.arrays;
    if IsAddAt(cfg, ns, p) {
      var byResult, bySource := FindResultUse(cfg, ns, p, a), FindSourceUse(cfg, ns, p, a);
      if byResult.Some? {
        ResultComplete(cfg, st, p, byResult.value.0, byResult.value.1);
      } else if bySource.Some? {
        SourceComplete(cfg, st, p, bySource.value.0, bySource.value.1);
      } else {
        EnterOnlyComplete(cfg, st, p);
      }
    } else {
      var found := FindInc(cfg, st, p);
      if found.Some? {
        PostApprovedReady(cfg, ns, p, a, found.value.0, found.value.1);
        AccessComplete(cfg, st, p, found.value.0, found.value.1);
      } else {
        EnterOnlyComplete(cfg, st, p);
      }
    }
  }

  // ----- Opportunities behind earlier merges -----

  /** On sound and complete arrays a use entry points to the first mention, if that is a use that does not also define. */
  lemma UseSound(cfg: Config, ns: seq<Node>, p: nat, a: Arrays, r: Reg, j: nat)
    requires Ready(cfg, ns, p, a) && p < j < |ns| && Between(ns, p, j, r) && ns[j].Refs(r) && !ns[j].Defs(r)
    ensures EntryAt(ns, p, a.use, r) == j
  {
    assert SoundFor(ns[p + 1..], a, r);
    FirstMention(ns, p, j, r);
    EntryIs(ns, p, a.use, r, j);
  }

  lemma AddSound(cfg: Config, ns: seq<Node>, p: nat, a: Arrays, q: nat)
    requires Ready(cfg, ns, p, a) && Complete(ns[p + 1..], a, cfg.frame) && p < q && AddAt(cfg, ns, q)
    requires Between(ns, p, q, ns[q].insn.reg0)
    ensures EntryAt(ns, p, a.use, ns[q].insn.reg0) == q && EntryAt(ns, p, a.inc, ns[q].insn.reg0) == q
  {
    var r := ns[q].insn.reg0;
    assert CompleteFor(ns[p + 1..], a, r, cfg.frame);
    FirstMention(ns, p, q, r);
    EntryIs(ns, p, a.use, r, q);
    EntryIs(ns, p, a.inc, r, q);
  }

  /** No entry of a register that is not mentioned before `j` points before `j`. */
  lemma NothingEarlier(cfg: Config, ns: seq<Node>, p: nat, a: Arrays, r: Reg, j: nat)
    requires Ready(cfg, ns, p, a) && p < j < |ns| && Between(ns, p, j, r)
    ensures EntryAt(ns, p, a.use, r) == -1 || j <= EntryAt(ns, p, a.use, r)
    ensures EntryAt(ns, p, a.def, r) == -1 || j <= EntryAt(ns, p, a.def, r)
    ensures !ns[j].Defs(r) ==> EntryAt(ns, p, a.def, r) != j
    ensures ns[j].Defs(r) ==> EntryAt(ns, p, a.def, r) == j
  {
    var t := ns[p + 1..];
    assert SoundFor(t, a, r);
    TailFormed(ns, p);
    var u, d := EntryAt(ns, p, a.use, r), EntryAt(ns, p, a.def, r);
    if u != -1 {
      UseAt(ns, p, a, r, u);
      FirstMention(ns, p, u, r);
    }
    if d != -1 {
      assert t[d - p - 1] == ns[d];
      NextDefAt(t, r, d - p - 1);
    }
    assert t[j - p - 1] == ns[j];
    if ns[j].Defs(r) {
      forall i | 0 <= i < j - p - 1 ensures !t[i].Defs(r) { assert t[i] == ns[i + p + 1]; }
      FirstDef(t, j - p - 1, r);
      EntryIs(ns, p, a.def, r, j);
    }
  }

  /** At every point of a scan with sound arrays, whatever was merged before in it, the step takes an opportunity through the
      result or of an access, and one through the register added to unless the access also defines that register. */
  lemma LaterChanceTaken(cfg: Config, st: Point, p: nat, j: nat, k: nat, h: GenForm)
    requires Ready(cfg, st.nodes, p, st.arrays) && Complete(st.nodes[p + 1..], st.arrays, cfg.frame)
    requires || ResultChance(cfg, st.nodes, p, j, k, h) || AccessChance(cfg, st.nodes, p, j, k, h)
             || (SourceChance(cfg, st.nodes, p, j, k, h) && !st.nodes[j].Defs(st.nodes[p].insn.reg0))
    ensures Visit(cfg, st, p).1
  {
    hide PreApproved, SourceApproved, PostApproved, Ready, Best, Between, OnlyAt, Complete;
    if ResultChance(cfg, st.nodes, p, j, k, h) {
      LaterResult(cfg, st.nodes, p, st.arrays, j, k, h);
    } else if AccessChance(cfg, st.nodes, p, j, k, h) {
      LaterAccess(cfg, st.nodes, p, st.arrays, j, k, h);
    } else {
      LaterSource(cfg, st.nodes, p, st.arrays, j, k, h);
    }
  }

  lemma LaterResult(cfg: Config, ns: seq<Node>, p: nat, a: Arrays, j: nat, k: nat, h: GenForm)
    requires Ready(cfg, ns, p, a) && ResultChance(cfg, ns, p, j, k, h)
    ensures PreApproved(cfg, ns, p, a, j, k)
  {
    hide Best, Permits, AllSound, FindAddress, Suits, EntryAt, Between;
    var add, i := ns[p].insn, ns[j].insn;
    BestDisplaced(cfg.caps, i.mems[k].size, PreForm(add), add.val, i.mems[k].addr.off, h);
    OperandUses(ns[j], k);
    LeadAvoids(ns[j], add.res, k);
    UseSound(cfg, ns, p, a, add.res, j);
    SuitsResult(i, add, k);
    AddressFound(i, add, add.res, |i.mems|, k);
    PermitsBest(cfg, add, i.mems[k].addr.off, i.mems[k], PreForm(add), add.res, ns[p].uid, ns[j].uid);
  }

  lemma LaterAccess(cfg: Config, ns: seq<Node>, p: nat, a: Arrays, q: nat, k: nat, h: GenForm)
    requires Ready(cfg, ns, p, a) && Complete(ns[p + 1..], a, cfg.frame) && AccessChance(cfg, ns, p, q, k, h)
    ensures PostApproved(cfg, ns, p, a, q, k)
  {
    hide Best, Permits, AllSound, WellFormed, EntryAt, Between, Occurrences, Complete;
    var i, m, add := ns[p].insn, ns[p].insn.mems[k], ns[q].insn;
    BestDisplaced(cfg.caps, m.size, PostForm(add), add.val, m.addr.off, h);
    OccursOnce(i, k);
    AddSound(cfg, ns, p, a, q);
    if add.res != add.reg0 { NothingEarlier(cfg, ns, p, a, add.res, q); }
    PermitsBest(cfg, add, m.addr.off, m, PostForm(add), add.res, ns[q].uid, ns[p].uid);
  }

  lemma LaterSource(cfg: Config, ns: seq<Node>, p: nat, a: Arrays, j: nat, k: nat, h: GenForm)
    requires Ready(cfg, ns, p, a) && SourceChance(cfg, ns, p, j, k, h) && !ns[j].Defs(ns[p].insn.reg0)
    ensures SourceApproved(cfg, ns, p, a, j, k)
  {
    hide Best, Permits, AllSound, FindAddress, Suits, EntryAt, Between;
    var add, i := ns[p].insn, ns[j].insn;
    OperandUses(ns[j], k);
    UseSound(cfg, ns, p, a, add.reg0, j);
    NothingEarlier(cfg, ns, p, a, add.res, j);
    NothingEarlier(cfg, ns, p, a, add.reg0, j);
    SuitsSource(ns[j].(lead := NoLead), add, k);
    AddressFound(i, add, add.reg0, |i.mems|, k);
    PermitsBest(cfg, add, -add.val, i.mems[k], FormPreAdd, add.res, ns[p].uid, ns[j].uid);
  }

  // ----- Whole scans -----

  /** The scan never loses an addition: at every point of a clean scan the arrays are sound and complete. */
  lemma {:induction false} ScanComplete(cfg: Config, st: Point, p: nat, q: nat)
    requires cfg.Valid() && q <= p <= |st.nodes| && Distinct(st.nodes, st.limit) && WellFormed(st.nodes)
    requires AllPlain(st.nodes[..p]) && AllSound(st.nodes[p..], st.arrays) && Complete(st.nodes[p..], st.arrays, cfg.frame)
    requires CleanScan(cfg, st, p)
    ensures var end := ScanTo(cfg, st, p, q).0;
            && q <= |end.nodes| && WellFormed(end.nodes) && AllPlain(end.nodes[..q])
            && AllSound(end.nodes[q..], end.arrays) && Complete(end.nodes[q..], end.arrays, cfg.frame)
    decreases p
  {
    hide Visit, CleanStep, AllSound, SameMeaning, Distinct, Complete, WellFormed;
    if p == q {
    } else {
      assert st.nodes[..p][p - 1] == st.nodes[p - 1];
      assert Ready(cfg, st.nodes, p - 1, st.arrays);
      VisitSound(cfg, st, p - 1);
      VisitCounts(cfg, st, p - 1);
      VisitComplete(cfg, st, p - 1);
      var st' := Visit(cfg, st, p - 1).0;
      assert st'.nodes[..p - 1] == st.nodes[..p - 1];
      ScanComplete(cfg, st', p - 1, q);
    }
  }

  /** So in a clean scan of any block every opportunity that the block has when its place comes up is taken, also behind merges
      made before. */
  lemma ScanTakesChance(cfg: Config, insns: seq<Insn>, q: nat, j: nat, k: nat, h: GenForm)
    requires cfg.Valid() && q < |insns| && CleanScan(cfg, Start(insns), |insns|)
    requires var st := ScanTo(cfg, Start(insns), |insns|, q + 1).0;
             && q < |st.nodes|
             && (|| ResultChance(cfg, st.nodes, q, j, k, h) || AccessChance(cfg, st.nodes, q, j, k, h)
                 || (SourceChance(cfg, st.nodes, q, j, k, h) && !st.nodes[j].Defs(st.nodes[q].insn.reg0)))
    ensures Visit(cfg, ScanTo(cfg, Start(insns), |insns|, q + 1).0, q).1
  {
    hide ScanTo, Visit, CleanScan, ResultChance, AccessChance, Ready;
    var st := Start(insns);
    NothingBehind(cfg, insns);
    assert st.nodes[|insns|..] == [] && st.nodes[..|insns|] == st.nodes;
    ScanComplete(cfg, st, |insns|, q + 1);
    var end := ScanTo(cfg, st, |insns|, q + 1).0;
    assert end.nodes[..q + 1][q] == end.nodes[q];
    AtScanPoint(cfg, end, q);
    LaterChanceTaken(cfg, end, q, j, k, h);
  }

  lemma AtScanPoint(cfg: Config, st: Point, q: nat)
    requires cfg.Valid() && WellFormed(st.nodes) && q < |st.nodes| && st.nodes[q].lead == NoLead && AllSound(st.nodes[q + 1..], st.arrays)
    ensures Ready(cfg, st.nodes, q, st.arrays)
  {
  }
}
