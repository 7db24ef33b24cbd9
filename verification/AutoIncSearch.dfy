/** Finding the merge to commit at a point of the reverse scan, and what committing it keeps. */
module AutoIncSearch {
  import opened Options
  import opened Rtl
  import opened AutoIncTable
  import opened AutoIncMerge
  import opened AutoIncArrays
  import opened AutoIncApprove
  import opened AutoIncPatch

  // ----- Register lists -----

  function DefList(i: Insn): seq<Reg> {
    match i
    case Add(res, _, _, _) => [res]
    case Move(dst, _) => [dst]
    case Op(_, mems, _, defs) => defs + AutoBases(mems)
  }

  function UseList(i: Insn): seq<Reg> {
    match i
    case Add(_, reg0, _, _) => [reg0]
    case Move(_, src) => [src]
    case Op(_, mems, uses, _) => uses + AddressRegs(mems)
  }

  function AutoBases(mems: seq<MemRef>): seq<Reg> {
    if mems == [] then [] else (if mems[0].addr.IsAuto() then [mems[0].addr.base] else []) + AutoBases(mems[1..])
  }

  function AddressRegs(mems: seq<MemRef>): seq<Reg> {
    if mems == [] then []
    else [mems[0].addr.base] + (if mems[0].addr.Index? then [mems[0].addr.index] else []) + AddressRegs(mems[1..])
  }

  lemma {:induction false} AutoBasesIn(mems: seq<MemRef>, r: Reg)
    ensures r in AutoBases(mems) <==> exists k :: 0 <= k < |mems| && mems[k].addr.IsAuto() && mems[k].addr.base == r
  {
    if mems == [] {
    } else {
      AutoBasesIn(mems[1..], r);
      assert (exists k :: 0 <= k < |mems| && mems[k].addr.IsAuto() && mems[k].addr.base == r) <==>
             (mems[0].addr.IsAuto() && mems[0].addr.base == r)
             || exists k :: 0 <= k < |mems[1..]| && mems[1..][k].addr.IsAuto() && mems[1..][k].addr.base == r by {
        if k :| 0 <= k < |mems| && mems[k].addr.IsAuto() && mems[k].addr.base == r {
          if k > 0 { assert mems[1..][k - 1] == mems[k]; }
        }
        if k :| 0 <= k < |mems[1..]| && mems[1..][k].addr.IsAuto() && mems[1..][k].addr.base == r {
          assert mems[k + 1] == mems[1..][k];
        }
      }
    }
  }

  lemma {:induction false} AddressRegsIn(mems: seq<MemRef>, r: Reg)
    ensures r in AddressRegs(mems) <==> exists k :: 0 <= k < |mems| && mems[k].addr.Mentions(r)
  {
    if mems == [] {
    } else {
      AddressRegsIn(mems[1..], r);
      assert (exists k :: 0 <= k < |mems| && mems[k].addr.Mentions(r)) <==>
             mems[0].addr.Mentions(r) || exists k :: 0 <= k < |mems[1..]| && mems[1..][k].addr.Mentions(r) by {
        if k :| 0 <= k < |mems| && mems[k].addr.Mentions(r) {
          if k > 0 { assert mems[1..][k - 1] == mems[k]; }
        }
        if k :| 0 <= k < |mems[1..]| && mems[1..][k].addr.Mentions(r) {
          assert mems[k + 1] == mems[1..][k];
        }
      }
    }
  }

  lemma ListsAgree(i: Insn, r: Reg)
    ensures r in DefList(i) <==> i.Defs(r)
    ensures r in UseList(i) <==> i.Uses(r)
  {
    if i.Op? {
      AutoBasesIn(i.mems, r);
      AddressRegsIn(i.mems, r);
    }
  }

  // ----- Counting additions -----

  function AddCount(ns: seq<Node>): nat {
    if ns == [] then 0 else (if ns[0].insn.Add? then 1 else 0) + AddCount(ns[1..])
  }

  lemma {:induction false} AddCountUpdate(ns: seq<Node>, i: nat, n: Node)
    requires i < |ns|
    ensures AddCount(ns[i := n]) == AddCount(ns) - (if ns[i].insn.Add? then 1 else 0) + (if n.insn.Add? then 1 else 0)
  {
    if i > 0 {
      AddCountUpdate(ns[1..], i - 1, n);
      assert ns[i := n][1..] == ns[1..][i - 1 := n];
    } else {
      assert ns[i := n][1..] == ns[1..];
    }
  }

  lemma {:induction false} AddCountRemove(ns: seq<Node>, i: nat)
    requires i < |ns|
    ensures AddCount(Remove(ns, i)) == AddCount(ns) - (if ns[i].insn.Add? then 1 else 0)
  {
    if i > 0 {
      AddCountRemove(ns[1..], i - 1);
      assert Remove(ns, i)[1..] == Remove(ns[1..], i - 1);
    } else {
      assert Remove(ns, i) == ns[1..];
    }
  }

  /** Every merge that starts from the addition removes exactly one addition. */
  lemma PreMergedCount(cfg: Config, ns: seq<Node>, p: nat, j: nat, k: nat, mov: nat)
    requires p < j < |ns| && ns[p].insn.Add? && ns[j].insn.Op? && k < |ns[j].insn.mems| && ns[j].insn.mems[k].addr.Disp?
    ensures AddCount(PreMerged(cfg, ns, p, j, k, mov)) == AddCount(ns) - 1
  {
    var acc := ns[j].(insn := WithOperand(ns[j].insn, k, PreOperand(cfg, ns, p, j, k)));
    if ns[p].insn.res == ns[p].insn.reg0 {
      AddCountUpdate(ns, j, acc);
      AddCountRemove(ns[j := acc], p);
    } else {
      var n := Node(mov, NoLead, Move(ns[p].insn.res, ns[p].insn.reg0));
      AddCountUpdate(ns, p, n);
      AddCountUpdate(ns[p := n], j, acc);
    }
  }

  lemma PostMergedCount(cfg: Config, ns: seq<Node>, p: nat, q: nat, k: nat)
    requires p < q < |ns| && ns[q].insn.Add? && ns[p].insn.Op? && k < |ns[p].insn.mems| && ns[p].insn.mems[k].addr.Disp?
    ensures AddCount(PostMerged(cfg, ns, p, q, k)) == AddCount(ns) - 1
  {
    var i, m := ns[p].insn, PostOperand(cfg, ns, p, q, k);
    var n := if ns[q].insn.res == ns[q].insn.reg0 then ns[p].(insn := WithOperand(i, k, m))
             else Node(ns[p].uid, Lead(ns[q].insn.res, ns[q].insn.reg0), WithOperand(i, k, m));
    AddCountUpdate(ns, p, n);
    AddCountRemove(ns[p := n], q);
  }

  // ----- Instruction lists and scan nodes -----

  ghost function RunInsns(f: Machine, insns: seq<Insn>, s: State): State {
    if insns == [] then s else RunInsns(f, insns[1..], Step(f, insns[0], s))
  }

  /** Both instruction lists take every state to the same state. */
  ghost predicate SameProgram(a: seq<Insn>, b: seq<Insn>) {
    forall f: Machine, s: State :: s.Total() ==> RunInsns(f, a, s) == RunInsns(f, b, s)
  }

  function Numbered(insns: seq<Insn>, uid: nat): seq<Node> {
    seq(|insns|, i requires 0 <= i < |insns| => Node(uid + i, NoLead, insns[i]))
  }

  /** The instruction list a block of nodes stands for. */
  function Flatten(ns: seq<Node>): seq<Insn> {
    if ns == [] then []
    else (if ns[0].lead.Lead? then [Move(ns[0].lead.dst, ns[0].lead.src)] else []) + [ns[0].insn] + Flatten(ns[1..])
  }

  lemma {:induction false} RunNumbered(f: Machine, insns: seq<Insn>, uid: nat, s: State)
    ensures Run(f, Numbered(insns, uid), s) == RunInsns(f, insns, s)
  {
    if insns == [] {
    } else {
      assert Numbered(insns, uid)[1..] == Numbered(insns[1..], uid + 1);
      RunNumbered(f, insns[1..], uid + 1, Step(f, insns[0], s));
    }
  }

  lemma {:induction false} RunFlatten(f: Machine, ns: seq<Node>, s: State)
    ensures RunInsns(f, Flatten(ns), s) == Run(f, ns, s)
  {
    if ns == [] {
    } else {
      var n, rest := ns[0], Flatten(ns[1..]);
      assert ([n.insn] + rest)[1..] == rest;
      if n.lead.Lead? {
        assert Flatten(ns) == [Move(n.lead.dst, n.lead.src)] + ([n.insn] + rest);
        assert Flatten(ns)[1..] == [n.insn] + rest;
      } else {
        assert Flatten(ns) == [n.insn] + rest;
      }
      RunFlatten(f, ns[1..], NodeStep(f, n, s));
    }
  }

  lemma {:induction false} FlattenNumbered(insns: seq<Insn>, uid: nat)
    ensures Flatten(Numbered(insns, uid)) == insns
  {
    if insns == [] {
    } else {
      assert Numbered(insns, uid)[1..] == Numbered(insns[1..], uid + 1);
      FlattenNumbered(insns[1..], uid + 1);
    }
  }

  lemma {:induction false} AddCountFlatten(ns: seq<Node>, uid: nat)
    ensures AddCount(Numbered(Flatten(ns), uid)) == AddCount(ns)
  {
    if ns == [] {
    } else {
      var n, rest := ns[0], Flatten(ns[1..]);
      var all := Flatten(ns);
      if n.lead.Lead? {
        assert all == [Move(n.lead.dst, n.lead.src)] + ([n.insn] + rest);
        assert Numbered(all, uid)[1..] == Numbered([n.insn] + rest, uid + 1);
        assert Numbered([n.insn] + rest, uid + 1)[1..] == Numbered(rest, uid + 2);
        AddCountFlatten(ns[1..], uid + 2);
      } else {
        assert all == [n.insn] + rest;
        assert Numbered(all, uid)[1..] == Numbered(rest, uid + 1);
        AddCountFlatten(ns[1..], uid + 1);
      }
    }
  }

  /** Blocks of nodes with the same meaning stand for the same program. */
  lemma SameMeaningFlat(a: seq<Node>, b: seq<Node>)
    requires SameMeaning(a, b)
    ensures SameProgram(Flatten(a), Flatten(b))
  {
    forall f: Machine, s: State | s.Total()
      ensures RunInsns(f, Flatten(a), s) == RunInsns(f, Flatten(b), s)
    {
      RunFlatten(f, a, s);
      RunFlatten(f, b, s);
    }
  }

  /** The merges that look through the register added to need a post-modify address. */
  predicate HasPostModify(caps: Caps) {
    caps.postInc || caps.postDec || caps.postDisp
  }

  lemma SourceNeedsPostModify(cfg: Config, ns: seq<Node>, p: nat, a: Arrays, j: nat, k: nat)
    requires cfg.Valid() && SourceApproved(cfg, ns, p, a, j, k)
    ensures HasPostModify(cfg.caps)
  {
  }

  // ----- Searching for a merge -----

  type Found = Option<(nat, nat)>

  function FindResultUse(cfg: Config, ns: seq<Node>, p: nat, a: Arrays): (r: Found)
    requires IsAddAt(cfg, ns, p)
    ensures r.Some? ==> PreApproved(cfg, ns, p, a, r.value.0, r.value.1)
    ensures r == None ==> forall j: nat, k: nat :: !PreApproved(cfg, ns, p, a, j, k)
  {
    var add := ns[p].insn;
    var j := EntryAt(ns, p, a.use, add.res);
    if j == -1 || !ns[j].insn.Op? then None
    else
      var k := FindAddress(ns[j].insn, add, add.res, |ns[j].insn.mems|);
      if k == -1 then None
      else
        var m := ns[j].insn.mems[k];
        if Permits(cfg, add, m.addr.off, m, PreForm(add), add.res, ns[p].uid, ns[j].uid) then Some((j, k)) else None
  }

  function FindSourceUse(cfg: Config, ns: seq<Node>, p: nat, a: Arrays): (r: Found)
    requires IsAddAt(cfg, ns, p)
    ensures r.Some? ==> SourceApproved(cfg, ns, p, a, r.value.0, r.value.1)
    ensures r == None ==> forall j: nat, k: nat :: !SourceApproved(cfg, ns, p, a, j, k)
  {
    var add := ns[p].insn;
    var j := EntryAt(ns, p, a.use, add.reg0);
    var u, d, s := EntryAt(ns, p, a.use, add.res), EntryAt(ns, p, a.def, add.res), EntryAt(ns, p, a.def, add.reg0);
    if add.res == add.reg0 || j == -1 || (u != -1 && j > u) || (d != -1 && j >= d) || (s != -1 && j > s)
       || !ns[j].insn.Op? then None
    else
      var k := FindAddress(ns[j].insn, add, add.reg0, |ns[j].insn.mems|);
      if k == -1 then None
      else if Permits(cfg, add, -add.val, ns[j].insn.mems[k], FormPreAdd, add.res, ns[p].uid, ns[j].uid) then Some((j, k))
      else None
  }

  /** The last of the first `n` operands of the access at `p` that can take over a later addition. */
  function FindIncFrom(cfg: Config, ns: seq<Node>, p: nat, a: Arrays, n: nat): (r: Found)
    requires p < |ns| && ns[p].insn.Op? && n <= |ns[p].insn.mems|
    ensures r.Some? ==> PostApproved(cfg, ns, p, a, r.value.0, r.value.1) && r.value.1 < n
    ensures r == None ==> forall q: nat, k: nat :: k < n ==> !PostApproved(cfg, ns, p, a, q, k)
  {
    if n == 0 then None
    else
      var m := ns[p].insn.mems[n - 1];
      var q := EntryAt(ns, p, a.inc, m.addr.base);
      if q != -1 && PostApproved(cfg, ns, p, a, q, n - 1) then Some((q, n - 1)) else FindIncFrom(cfg, ns, p, a, n - 1)
  }

  // ----- What every merge keeps, sound arrays or not -----

  lemma DistinctUpdate(ns: seq<Node>, limit: nat, i: nat, n: Node)
    requires Distinct(ns, limit) && i < |ns| && (n.uid == ns[i].uid || n.uid == limit)
    ensures Distinct(ns[i := n], limit + 1)
    ensures n.uid == ns[i].uid ==> Distinct(ns[i := n], limit)
  {
  }

  lemma DistinctRemove(ns: seq<Node>, limit: nat, i: nat)
    requires Distinct(ns, limit) && i < |ns|
    ensures Distinct(Remove(ns, i), limit)
  {
  }

  /** The prefix is untouched, one addition is gone and the identifiers stay distinct. */
  predicate OneAddLess(ns: seq<Node>, limit: nat, ns': seq<Node>, limit': nat, p: nat) {
    && p <= |ns| && p <= |ns'| && ns'[..p] == ns[..p]
    && AddCount(ns') == AddCount(ns) - 1 && Distinct(ns', limit')
  }

  lemma PreOneAddLess(cfg: Config, ns: seq<Node>, limit: nat, p: nat, j: nat, k: nat)
    requires Distinct(ns, limit) && p < j < |ns| && ns[p].insn.Add? && ns[j].insn.Op?
    requires k < |ns[j].insn.mems| && ns[j].insn.mems[k].addr.Disp?
    ensures OneAddLess(ns, limit, PreMerged(cfg, ns, p, j, k, limit),
                       if ns[p].insn.res == ns[p].insn.reg0 then limit else limit + 1, p)
  {
    PreMergedCount(cfg, ns, p, j, k, limit);
    var acc := ns[j].(insn := WithOperand(ns[j].insn, k, PreOperand(cfg, ns, p, j, k)));
    DistinctUpdate(ns, limit, j, acc);
    if ns[p].insn.res == ns[p].insn.reg0 {
      DistinctRemove(ns[j := acc], limit, p);
    } else {
      var n := Node(limit, NoLead, Move(ns[p].insn.res, ns[p].insn.reg0));
      DistinctUpdate(ns[j := acc], limit, p, n);
      assert ns[p := n][j := acc] == ns[j := acc][p := n];
    }
  }

  lemma PostOneAddLess(cfg: Config, ns: seq<Node>, limit: nat, p: nat, q: nat, k: nat)
    requires Distinct(ns, limit) && p < q < |ns| && ns[q].insn.Add? && ns[p].insn.Op?
    requires k < |ns[p].insn.mems| && ns[p].insn.mems[k].addr.Disp?
    ensures OneAddLess(ns, limit, PostMerged(cfg, ns, p, q, k), limit, p)
  {
    PostMergedCount(cfg, ns, p, q, k);
    var i, m := ns[p].insn, PostOperand(cfg, ns, p, q, k);
    var n := if ns[q].insn.res == ns[q].insn.reg0 then ns[p].(insn := WithOperand(i, k, m))
             else Node(ns[p].uid, Lead(ns[q].insn.res, ns[q].insn.reg0), WithOperand(i, k, m));
    DistinctUpdate(ns, limit, p, n);
    DistinctRemove(ns[p := n], limit, q);
  }

  // ----- What a merge keeps on sound arrays -----

  function PrePatch(add: Insn, a: Arrays, acc: nat, limit: nat): Arrays
    requires add.Add?
  {
    if add.res == add.reg0 then PatchPreInc(a, add, acc) else PatchPreAdd(a, add, limit)
  }

  /** The block is well formed, means the same as before, and the arrays describe it from `p` on. */
  ghost predicate StaysSound(ns: seq<Node>, ns': seq<Node>, a': Arrays, p: nat) {
    p <= |ns'| && WellFormed(ns') && SameMeaning(ns, ns') && AllSound(ns'[p..], a')
  }

  lemma ResultMergeSound(cfg: Config, ns: seq<Node>, limit: nat, p: nat, a: Arrays, j: nat, k: nat)
    requires Ready(cfg, ns, p, a) && Distinct(ns, limit) && PreApproved(cfg, ns, p, a, j, k)
    ensures StaysSound(ns, PreMerged(cfg, ns, p, j, k, limit), PrePatch(ns[p].insn, a, ns[j].uid, limit), p)
  {
    PreApprovedReady(cfg, ns, p, a, j, k);
    PreApprovedPreserves(cfg, ns, p, a, j, k, limit);
    var m, off := PreOperand(cfg, ns, p, j, k), ns[p].insn.val + ns[j].insn.mems[k].addr.off;
    PreMergedFormed(ns, p, j, k, m, limit, off);
    if ns[p].insn.res == ns[p].insn.reg0 {
      PreIncPatched(cfg, ns, p, a, j, k);
    } else {
      PreApprovedNoStaleAdd(cfg, ns, p, a, j, k);
      PreAddPatched(ns, p, a, j, k, m, off, limit);
    }
  }

  /** The merge through the register added to is one the rest of the scan can build on. */
  predicate CleanAt(ns: seq<Node>, a: Arrays, p: nat, j: nat)
    requires p < |ns| && j < |ns| && ns[p].insn.Add?
  {
    ns[p].insn.res !in a.inc && !Overtakes(ns, p, j)
  }

  lemma SourceMergeSound(cfg: Config, ns: seq<Node>, limit: nat, p: nat, a: Arrays, j: nat, k: nat)
    requires Ready(cfg, ns, p, a) && Distinct(ns, limit) && SourceApproved(cfg, ns, p, a, j, k) && CleanAt(ns, a, p, j)
    ensures StaysSound(ns, PreMerged(cfg, ns, p, j, k, limit), PatchPreAdd(a, ns[p].insn, limit), p)
  {
    SourceApprovedReady(cfg, ns, p, a, j, k);
    SourceApprovedPreserves(cfg, ns, p, a, j, k, limit);
    var m := PreOperand(cfg, ns, p, j, k);
    PreMergedFormed(ns, p, j, k, m, limit, 0);
    PreAddPatched(ns, p, a, j, k, m, 0, limit);
  }

  lemma PostMergeSound(cfg: Config, ns: seq<Node>, p: nat, a: Arrays, q: nat, k: nat, b: Arrays)
    requires Ready(cfg, ns, p, a) && PostApproved(cfg, ns, p, a, q, k)
    requires Entered(PatchPost(a, ns[q].insn, ns[q].uid, ns[p].uid), b, PostMerged(cfg, ns, p, q, k)[p].insn, ns[p].uid, false)
    ensures StaysSound(ns, PostMerged(cfg, ns, p, q, k), b, p)
  {
    PostApprovedPreserves(cfg, ns, p, a, q, k);
    PostMergedFormed(cfg, ns, p, a, q, k);
    PostPatched(cfg, ns, p, a, q, k, b);
  }

  lemma EnterStaysSound(cfg: Config, ns: seq<Node>, p: nat, a: Arrays, b: Arrays)
    requires Ready(cfg, ns, p, a) && Entered(a, b, ns[p].insn, ns[p].uid, Parses(ns[p].insn, cfg.frame))
    ensures StaysSound(ns, ns, b, p)
  {
    assert ns[p..] == [ns[p]] + ns[p + 1..];
    EnterSound(ns[p], ns[p + 1..], a, b, cfg.frame);
  }
}
