/** The hand-made array updates of a committed merge: they leave the arrays sound for the rewritten block, and the one
    update that may fail to do so, with the exact condition. */
module AutoIncPatch {
  import opened Options
  import opened Rtl
  import opened AutoIncMerge
  import opened AutoIncArrays
  import opened AutoIncApprove

  // ----- What a rewritten access mentions -----

  lemma OperandBase(i: Insn, k: nat, m: MemRef)
    requires i.Op? && k < |i.mems| && m.addr.IsAuto()
    ensures WithOperand(i, k, m).Uses(m.addr.base) && WithOperand(i, k, m).Defs(m.addr.base)
  {
    assert WithOperand(i, k, m).mems[k] == m;
  }

  lemma OperandOthers(i: Insn, k: nat, m: MemRef, r: Reg)
    requires i.Op? && k < |i.mems| && !i.mems[k].addr.IsAuto() && m.addr.IsAuto() && r != m.addr.base
    ensures WithOperand(i, k, m).Defs(r) == i.Defs(r)
    ensures !i.mems[k].addr.Mentions(r) ==> WithOperand(i, k, m).Uses(r) == i.Uses(r)
    ensures WithOperand(i, k, m).Uses(r) ==> i.Uses(r)
  {
    var i' := WithOperand(i, k, m);
    forall x | 0 <= x < |i.mems| && x != k
      ensures i'.mems[x] == i.mems[x]
    {
    }
    assert i'.mems[k] == m && !m.addr.Mentions(r);
  }

  /** A leading copy of other registers stays in order when another operand of its access is rewritten. */
  lemma LeadKept(n: Node, k: nat, m: MemRef)
    requires LeadOk(n) && n.insn.Op? && k < |n.insn.mems| && !n.insn.mems[k].addr.IsAuto() && m.addr.IsAuto()
    requires n.lead.Lead? ==> n.lead.dst != m.addr.base && n.lead.src != m.addr.base
    ensures LeadOk(n.(insn := WithOperand(n.insn, k, m)))
  {
    if n.lead.Lead? {
      OperandOthers(n.insn, k, m, n.lead.src);
      var x: nat :| OnlyAt(n.insn, n.lead.dst, x) && n.insn.mems[x].addr.IsAuto() && n.insn.mems[x].addr.base == n.lead.dst;
      assert OnlyAt(WithOperand(n.insn, k, m), n.lead.dst, x);
    }
  }

  // ----- The addition first -----

  /** The instructions behind the addition, with the access at `j` rewritten. */
  ghost function TailWith(ns: seq<Node>, p: nat, j: nat, k: nat, m: MemRef): seq<Node>
    requires p < j < |ns| && ns[j].insn.Op? && k < |ns[j].insn.mems|
  {
    ns[p + 1..][j - p - 1 := ns[j].(insn := WithOperand(ns[j].insn, k, m))]
  }

  /** A register other than the result, and other than the base of the rewritten operand, is not affected. */
  lemma TailOthers(ns: seq<Node>, p: nat, j: nat, k: nat, m: MemRef, a: Arrays, r: Reg)
    requires p < j < |ns| && ns[j].insn.Op? && k < |ns[j].insn.mems| && ns[j].insn.mems[k].addr.Disp?
    requires m.addr.IsAuto() && r != m.addr.base && r != ns[j].insn.mems[k].addr.base
    requires SoundFor(ns[p + 1..], a, r)
    ensures SoundFor(TailWith(ns, p, j, k, m), a, r)
  {
    OperandOthers(ns[j].insn, k, m, r);
    var t := ns[p + 1..];
    assert t[j - p - 1] == ns[j];
    UpdateSound(t, a, j - p - 1, ns[j].(insn := WithOperand(ns[j].insn, k, m)), r);
  }

  /** After "a += c ... *(a + m)" became "... *(a += c)". */
  lemma PreIncPatched(cfg: Config, ns: seq<Node>, p: nat, a: Arrays, j: nat, k: nat)
    requires Ready(cfg, ns, p, a) && PreApproved(cfg, ns, p, a, j, k) && ns[p].insn.res == ns[p].insn.reg0
    ensures AllSound(PreMerged(cfg, ns, p, j, k, 0)[p..], PatchPreInc(a, ns[p].insn, ns[j].uid))
  {
    var add, m, t := ns[p].insn, PreOperand(cfg, ns, p, j, k), ns[p + 1..];
    PreApprovedReady(cfg, ns, p, a, j, k);
    var t', b := TailWith(ns, p, j, k, m), PatchPreInc(a, add, ns[j].uid);
    assert PreMerged(cfg, ns, p, j, k, 0)[p..] == t';
    forall r
      ensures SoundFor(t', b, r)
    {
      assert SoundFor(t, a, r);
      if r == add.res {
        UseAt(ns, p, a, r, j);
        OperandBase(ns[j].insn, k, m);
        assert t'[j - p - 1] == ns[j].(insn := WithOperand(ns[j].insn, k, m));
        FirstAt(t', j - p - 1, r);
      } else {
        TailOthers(ns, p, j, k, m, a, r);
        assert SoundFor(t', b, r);
      }
    }
  }

  /** What the array of additions must hold for the copy left by a merge to be described soundly: nothing for the
      result. */
  ghost predicate NoStaleAdd(a: Arrays, add: Insn)
    requires add.Add?
  {
    add.res !in a.inc
  }

  /** After "a <- b + c ... *(a + m)" or "a <- b + c ... *b" became "a <- b ... *(a += c)".  The arrays are sound again if
      and only if no addition to `a` was recorded: that entry is not cleared, though the copy now defines `a`. */
  lemma PreAddPatched(ns: seq<Node>, p: nat, a: Arrays, j: nat, k: nat, m: MemRef, off: int, mov: nat)
    requires WellFormed(ns) && p < j < |ns| && ns[p].insn.Add? && ns[p].insn.res != ns[p].insn.reg0
    requires AllSound(ns[p + 1..], a) && PreReady(ns[p + 1..j], ns[j], k, m, ns[p].insn, off)
    requires forall i :: 0 <= i < |ns| ==> ns[i].uid < mov
    ensures AllSound(PreAddMerge(ns, p, j, k, m, mov)[p..], PatchPreAdd(a, ns[p].insn, mov)) <==> NoStaleAdd(a, ns[p].insn)
  {
    var add, t := ns[p].insn, ns[p + 1..];
    var n := Node(mov, NoLead, Move(add.res, add.reg0));
    var t', b := TailWith(ns, p, j, k, m), PatchPreAdd(a, add, mov);
    assert PreAddMerge(ns, p, j, k, m, mov)[p..] == [n] + t';
    Prepend(n, t');
    if NoStaleAdd(a, add) {
      forall r
        ensures SoundFor([n] + t', b, r)
      {
        assert SoundFor(t, a, r);
        PreAddPatchedFor(ns, p, a, j, k, m, off, mov, r);
      }
    } else {
      assert NextRef([n] + t', add.res) == Some(n);
      assert !AddReached([n] + t', add.res, a.inc[add.res]) by {
        AddReachedIn(t, add.res, a.inc[add.res]) by { assert SoundFor(t, a, add.res); }
        assert n.Defs(add.res);
      }
      assert !SoundFor([n] + t', b, add.res);
    }
  }

  lemma PreAddPatchedFor(ns: seq<Node>, p: nat, a: Arrays, j: nat, k: nat, m: MemRef, off: int, mov: nat, r: Reg)
    requires WellFormed(ns) && p < j < |ns| && ns[p].insn.Add? && ns[p].insn.res != ns[p].insn.reg0
    requires SoundFor(ns[p + 1..], a, r) && PreReady(ns[p + 1..j], ns[j], k, m, ns[p].insn, off)
    requires forall i :: 0 <= i < |ns| ==> ns[i].uid < mov
    requires NoStaleAdd(a, ns[p].insn)
    ensures SoundFor([Node(mov, NoLead, Move(ns[p].insn.res, ns[p].insn.reg0))] + TailWith(ns, p, j, k, m),
                     PatchPreAdd(a, ns[p].insn, mov), r)
  {
    var add, t := ns[p].insn, ns[p + 1..];
    var n := Node(mov, NoLead, Move(add.res, add.reg0));
    var t', b := TailWith(ns, p, j, k, m), PatchPreAdd(a, add, mov);
    Prepend(n, t');
    var acc := ns[j].(insn := WithOperand(ns[j].insn, k, m));
    assert t[j - p - 1] == ns[j];
    if r == add.res {
    } else if r == add.reg0 {
      OperandOthers(ns[j].insn, k, m, r);
      UpdateSameDef(t, j - p - 1, acc, r);
      if r in a.inc { AddReachedIn(t, r, a.inc[r]); }
    } else {
      TailOthers(ns, p, j, k, m, a, r);
      if r in a.inc { AddReachedIn(t, r, a.inc[r]); }
      assert !n.Refs(r);
    }
  }

  /** When the merge was found through the next use of the result, no addition to the result is recorded. */
  lemma PreApprovedNoStaleAdd(cfg: Config, ns: seq<Node>, p: nat, a: Arrays, j: nat, k: nat)
    requires Ready(cfg, ns, p, a) && PreApproved(cfg, ns, p, a, j, k)
    ensures NoStaleAdd(a, ns[p].insn)
  {
    assert SoundFor(ns[p + 1..], a, ns[p].insn.res);
    UseAt(ns, p, a, ns[p].insn.res, j);
  }

  // ----- The access first -----

  /** After an access at `p` took over a later addition: the patch followed by entering the rewritten access. */
  lemma PostPatched(cfg: Config, ns: seq<Node>, p: nat, a: Arrays, q: nat, k: nat, b: Arrays)
    requires Ready(cfg, ns, p, a) && PostApproved(cfg, ns, p, a, q, k)
    requires Entered(PatchPost(a, ns[q].insn, ns[q].uid, ns[p].uid), b, PostMerged(cfg, ns, p, q, k)[p].insn, ns[p].uid, false)
    ensures AllSound(PostMerged(cfg, ns, p, q, k)[p..], b)
  {
    PostApprovedReady(cfg, ns, p, a, q, k);
    var merged := PostMerged(cfg, ns, p, q, k);
    var t := Remove(ns[p + 1..], q - p - 1);
    assert merged[p..] == [merged[p]] + t;
    Prepend(merged[p], t);
    assert merged[p].insn == WithOperand(ns[p].insn, k, PostOperand(cfg, ns, p, q, k));
    assert PostFacts(cfg, ns, p, a, q, k, b);
    var rest := ns[p + 1..];
    assert AllSound(rest, a);
    hide PostFacts, PostApproved, PostReady, Entered, WellFormed, SoundFor, PostMerged;
    forall r
      ensures SoundFor(merged[p..], b, r)
    {
      assert SoundFor(rest, a, r);
      PostPatchedFor(cfg, ns, p, a, q, k, b, r);
    }
  }

  /** The facts about an approved merge of an access with a later addition that the three cases below share. */
  ghost predicate PostFacts(cfg: Config, ns: seq<Node>, p: nat, a: Arrays, q: nat, k: nat, b: Arrays) {
    && WellFormed(ns) && PostApproved(cfg, ns, p, a, q, k) && p < q && ns[q].lead == NoLead
    && ns[q].insn.reg0 == ns[p].insn.mems[k].addr.base
    && PostReady(ns[p], ns[p + 1..q], k, PostOperand(cfg, ns, p, q, k), ns[q].insn, ns[p].insn.mems[k].addr.off)
    && Entered(PatchPost(a, ns[q].insn, ns[q].uid, ns[p].uid), b,
               WithOperand(ns[p].insn, k, PostOperand(cfg, ns, p, q, k)), ns[p].uid, false)
  }

  lemma PostPatchedFor(cfg: Config, ns: seq<Node>, p: nat, a: Arrays, q: nat, k: nat, b: Arrays, r: Reg)
    requires PostFacts(cfg, ns, p, a, q, k, b) && SoundFor(ns[p + 1..], a, r)
    ensures SoundFor([PostMerged(cfg, ns, p, q, k)[p]] + Remove(ns[p + 1..], q - p - 1), b, r)
  {
    if r == ns[q].insn.res {
      OperandBase(ns[p].insn, k, PostOperand(cfg, ns, p, q, k));
      Prepend(PostMerged(cfg, ns, p, q, k)[p], Remove(ns[p + 1..], q - p - 1));
    } else if r == ns[q].insn.reg0 {
      PostPatchedSource(cfg, ns, p, a, q, k, b);
    } else {
      PostPatchedOther(cfg, ns, p, a, q, k, b, r);
    }
  }

  /** The register added to, which the access no longer mentions but its new leading copy does. */
  lemma PostPatchedSource(cfg: Config, ns: seq<Node>, p: nat, a: Arrays, q: nat, k: nat, b: Arrays)
    requires PostFacts(cfg, ns, p, a, q, k, b) && ns[q].insn.res != ns[q].insn.reg0
    requires SoundFor(ns[p + 1..], a, ns[q].insn.reg0)
    ensures SoundFor([PostMerged(cfg, ns, p, q, k)[p]] + Remove(ns[p + 1..], q - p - 1), b, ns[q].insn.reg0)
  {
    var r, m, tail := ns[q].insn.reg0, PostOperand(cfg, ns, p, q, k), ns[p + 1..];
    var n, t := PostMerged(cfg, ns, p, q, k)[p], Remove(tail, q - p - 1);
    assert tail[q - p - 1] == ns[q];
    Prepend(n, t);
    OperandOthers(ns[p].insn, k, m, r);
    OnceMeansOnlyAt(ns[p].insn, r, k);
    assert !n.insn.Refs(r);
    RemoveSameDef(tail, q - p - 1, r);
    assert Entry(a.inc, r) == Some(ns[q].uid);
  }

  lemma PostPatchedOther(cfg: Config, ns: seq<Node>, p: nat, a: Arrays, q: nat, k: nat, b: Arrays, r: Reg)
    requires PostFacts(cfg, ns, p, a, q, k, b) && SoundFor(ns[p + 1..], a, r)
    requires r != ns[q].insn.res && r != ns[q].insn.reg0
    ensures SoundFor([PostMerged(cfg, ns, p, q, k)[p]] + Remove(ns[p + 1..], q - p - 1), b, r)
  {
    var tail := ns[p + 1..];
    var n, t := PostMerged(cfg, ns, p, q, k)[p], Remove(tail, q - p - 1);
    assert tail[q - p - 1] == ns[q];
    Prepend(n, t);
    RemoveSame(tail, q - p - 1, r);
    if r in a.inc && !n.Refs(r) {
      AddReachedIn(tail, r, a.inc[r]);
      var x :| 0 <= x < |tail| && tail[x].uid == a.inc[r];
      assert tail[x] == ns[x + p + 1];
    }
  }

  // ----- The rewritten block is well formed -----

  predicate Distinct(ns: seq<Node>, limit: nat) {
    && (forall i, j :: 0 <= i < j < |ns| ==> ns[i].uid != ns[j].uid)
    && (forall i :: 0 <= i < |ns| ==> ns[i].uid < limit)
  }

  lemma PreMergedFormed(ns: seq<Node>, p: nat, j: nat, k: nat, m: MemRef, limit: nat, off: int)
    requires WellFormed(ns) && Distinct(ns, limit) && p < j < |ns| && ns[p].insn.Add?
    requires PreReady(ns[p + 1..j], ns[j], k, m, ns[p].insn, off)
    ensures WellFormed(PreAddMerge(ns, p, j, k, m, limit)) && WellFormed(PreIncMerge(ns, p, j, k, m))
  {
    LeadKept(ns[j], k, m);
    var merged := PreAddMerge(ns, p, j, k, m, limit);
    forall i | 0 <= i < |merged| ensures LeadOk(merged[i]) {
      if i != p && i != j { assert merged[i] == ns[i]; }
    }
    var merged' := PreIncMerge(ns, p, j, k, m);
    forall i | 0 <= i < |merged'| ensures LeadOk(merged'[i]) {
      var x := if i < p then i else i + 1;
      if x != j { assert merged'[i] == ns[x]; }
    }
  }

  lemma PostMergedFormed(cfg: Config, ns: seq<Node>, p: nat, a: Arrays, q: nat, k: nat)
    requires Ready(cfg, ns, p, a) && PostApproved(cfg, ns, p, a, q, k)
    ensures WellFormed(PostMerged(cfg, ns, p, q, k))
  {
    PostApprovedReady(cfg, ns, p, a, q, k);
    var add, m := ns[q].insn, PostOperand(cfg, ns, p, q, k);
    var merged := PostMerged(cfg, ns, p, q, k);
    assert LeadOk(merged[p]) by {
      if add.res != add.reg0 {
        OperandOthers(ns[p].insn, k, m, add.reg0);
        OnceMeansOnlyAt(ns[p].insn, add.reg0, k);
        assert OnlyAt(WithOperand(ns[p].insn, k, m), add.res, k);
      }
    }
    forall i | 0 <= i < |merged| ensures LeadOk(merged[i]) {
      if i != p { assert merged[i] == ns[if i < q then i else i + 1]; }
    }
  }
}
