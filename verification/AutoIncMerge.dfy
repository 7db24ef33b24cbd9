/** The four merges of the auto-increment pass as rewrites of a block, and the proof that each one preserves what
    the block does to every register and to memory. */
module AutoIncMerge {
  import opened Rtl

  /** A register copy placed in front of an instruction by a merge of the form "access, then add". */
  datatype Lead = NoLead | Lead(dst: Reg, src: Reg)

  /** An instruction of a block as the reverse scan meets it.  A copy emitted in front of the instruction being
      scanned is not visited by that scan, so it is kept with its instruction as `lead`. */
  datatype Node = Node(uid: nat, lead: Lead, insn: Insn) {
    predicate Uses(r: Reg) { (lead.Lead? && lead.src == r) || insn.Uses(r) }
    predicate Defs(r: Reg) { (lead.Lead? && lead.dst == r) || insn.Defs(r) }
    predicate Refs(r: Reg) { Uses(r) || Defs(r) }
  }

  ghost function NodeStep(f: Machine, n: Node, s: State): State {
    Step(f, n.insn, if n.lead.Lead? then Step(f, Move(n.lead.dst, n.lead.src), s) else s)
  }

  ghost function Run(f: Machine, ns: seq<Node>, s: State): State {
    if ns == [] then s else Run(f, ns[1..], NodeStep(f, ns[0], s))
  }

  /** Both blocks take every state to the same state, whatever the other instructions do. */
  ghost predicate SameMeaning(a: seq<Node>, b: seq<Node>) {
    forall f: Machine, s: State :: s.Total() ==> Run(f, a, s) == Run(f, b, s)
  }

  function Remove(ns: seq<Node>, i: nat): seq<Node>
    requires i < |ns|
  {
    ns[..i] + ns[i + 1..]
  }

  // ----- Running sequences -----

  lemma {:induction false} RunAppend(f: Machine, a: seq<Node>, b: seq<Node>, s: State)
    ensures Run(f, a + b, s) == Run(f, b, Run(f, a, s))
  {
    if a == [] {
      assert a + b == b;
    } else {
      assert (a + b)[1..] == a[1..] + b;
      RunAppend(f, a[1..], b, NodeStep(f, a[0], s));
    }
  }

  lemma NodeFrame(f: Machine, n: Node, s: State, r: Reg, v: int)
    requires !n.Refs(r)
    ensures NodeStep(f, n, SetReg(s, r, v)) == SetReg(NodeStep(f, n, s), r, v)
  {
    if n.lead.Lead? {
      var mov := Move(n.lead.dst, n.lead.src);
      StepFrame(f, mov, s, r, v);
      StepFrame(f, n.insn, Step(f, mov, s), r, v);
    } else {
      StepFrame(f, n.insn, s, r, v);
    }
  }

  /** Setting a register commutes with a run of instructions that do not mention it. */
  lemma {:induction false} RunFrame(f: Machine, ns: seq<Node>, s: State, r: Reg, v: int)
    requires forall i :: 0 <= i < |ns| ==> !ns[i].Refs(r)
    ensures Run(f, ns, SetReg(s, r, v)) == SetReg(Run(f, ns, s), r, v)
  {
    if ns == [] {
    } else {
      NodeFrame(f, ns[0], s, r, v);
      RunFrame(f, ns[1..], NodeStep(f, ns[0], s), r, v);
    }
  }

  /** A register no instruction of the run defines keeps its value. */
  lemma {:induction false} RunKeeps(f: Machine, ns: seq<Node>, s: State, r: Reg)
    requires forall i :: 0 <= i < |ns| ==> !ns[i].Defs(r)
    ensures Get(Run(f, ns, s).regs, r) == Get(s.regs, r)
  {
    if ns == [] {
    } else {
      var n := ns[0];
      if n.lead.Lead? {
        StepKeeps(f, Move(n.lead.dst, n.lead.src), s, r);
        StepKeeps(f, n.insn, Step(f, Move(n.lead.dst, n.lead.src), s), r);
      } else {
        StepKeeps(f, n.insn, s, r);
      }
      RunKeeps(f, ns[1..], NodeStep(f, n, s), r);
    }
  }

  lemma {:induction false} RunTotal(f: Machine, ns: seq<Node>, s: State)
    requires s.Total()
    ensures Run(f, ns, s).Total()
  {
    if ns == [] {
    } else {
      var n := ns[0];
      if n.lead.Lead? {
        StepTotal(f, Move(n.lead.dst, n.lead.src), s);
        StepTotal(f, n.insn, Step(f, Move(n.lead.dst, n.lead.src), s));
      } else {
        StepTotal(f, n.insn, s);
      }
      RunTotal(f, ns[1..], NodeStep(f, n, s));
    }
  }

  // ----- Replacing one memory operand by an auto-modify operand -----

  /** The only place instruction `i` may mention register `r` is memory operand `k`. */
  predicate OnlyAt(i: Insn, r: Reg, k: nat) {
    && i.Op? && k < |i.mems|
    && r !in i.uses && r !in i.defs
    && forall m :: 0 <= m < |i.mems| && m != k ==> !i.mems[m].addr.Mentions(r)
  }

  function WithOperand(i: Insn, k: nat, m: MemRef): Insn
    requires i.Op? && k < |i.mems|
  {
    i.(mems := i.mems[k := m])
  }

  lemma {:induction false} BumpSwap(mems: seq<MemRef>, k: nat, m: MemRef, prior: Regs, regs: Regs, r: Reg, y: int)
    requires k < |mems| && !mems[k].addr.IsAuto() && m.addr.IsAuto() && m.addr.base == r
    requires forall n :: 0 <= n < |mems| && n != k ==> !mems[n].addr.Mentions(r)
    ensures Bump(mems[k := m], prior[r := y], regs[r := y])
         == Bump(mems, prior, regs)[r := y + m.addr.Step(m.size)]
  {
    var n := |mems| - 1;
    var before := Bump(mems[..n], prior, regs);
    if n == k {
      BumpFrame(mems[..n], prior, regs, r, y);
      assert mems[k := m][..n] == mems[..n];
      assert before[r := y][r := y + m.addr.Step(m.size)] == before[r := y + m.addr.Step(m.size)];
    } else {
      BumpSwap(mems[..n], k, m, prior, regs, r, y);
      assert mems[k := m][..n] == mems[..n][k := m];
      BumpOneFrame(mems[n], prior, before, r, y, y + m.addr.Step(m.size));
    }
  }

  /** If operand `k` (which does not update a register) accesses in state `s` what the auto-modify operand `m` accesses
      when its base holds `y`, the rewritten instruction does the same and in addition advances the base. */
  lemma SwapOperand(f: Machine, i: Insn, k: nat, m: MemRef, s: State, y: int)
    requires m.addr.IsAuto() && OnlyAt(i, m.addr.base, k) && !i.mems[k].addr.IsAuto()
    requires Effective(i.mems[k], s.regs) == Effective(m, s.regs[m.addr.base := y])
    ensures Step(f, WithOperand(i, k, m), SetReg(s, m.addr.base, y))
         == SetReg(Step(f, i, s), m.addr.base, y + m.addr.Step(m.size))
  {
    var r := m.addr.base;
    var t := SetReg(s, r, y);
    assert EffectiveAll(i.mems[k := m], t.regs) == EffectiveAll(i.mems, s.regs);
    assert Values(i.uses, t.regs) == Values(i.uses, s.regs);
    var (outs, mem) := f(i.code, EffectiveAll(i.mems, s.regs), Values(i.uses, s.regs), s.mem);
    WriteDefsFrame(i.defs, outs, s.regs, r, y);
    BumpSwap(i.mems, k, m, s.regs, WriteDefs(i.defs, outs, s.regs), r, y);
  }

  // ----- Putting a rewritten stretch back into its block -----

  /** Positions `p` and `j` split a block into five parts. */
  lemma SplitAt(ns: seq<Node>, p: nat, j: nat)
    requires p < j < |ns|
    ensures ns == ns[..p] + ([ns[p]] + (ns[p + 1..j] + ([ns[j]] + ns[j + 1..])))
  {
  }

  lemma RunSplit(f: Machine, a: seq<Node>, x: seq<Node>, seg: seq<Node>, y: seq<Node>, b: seq<Node>, s: State)
    ensures Run(f, a + (x + (seg + (y + b))), s) == Run(f, b, Run(f, y, Run(f, seg, Run(f, x, Run(f, a, s)))))
  {
    RunAppend(f, a, x + (seg + (y + b)), s);
    var s1 := Run(f, a, s);
    RunAppend(f, x, seg + (y + b), s1);
    var s2 := Run(f, x, s1);
    RunAppend(f, seg, y + b, s2);
    RunAppend(f, y, b, Run(f, seg, s2));
  }

  /** What a stretch "`x` before `seg` before `y`" does, where `x` and `y` are at most one instruction each. */
  ghost function Stretch(f: Machine, x: seq<Node>, seg: seq<Node>, y: seq<Node>, s: State): State {
    Run(f, y, Run(f, seg, Run(f, x, s)))
  }

  lemma RunOne(f: Machine, n: Node, s: State)
    ensures Run(f, [n], s) == NodeStep(f, n, s)
  {
    assert [n][1..] == [];
  }

  /** Replacing the ends of a stretch of a block by ends with the same effect does not change the block's meaning. */
  lemma Rewrite(ns: seq<Node>, p: nat, j: nat, seg: seq<Node>, merged: seq<Node>, x: seq<Node>, y: seq<Node>)
    requires p < j < |ns| && seg == ns[p + 1..j]
    requires merged == ns[..p] + (x + (seg + (y + ns[j + 1..])))
    requires forall f: Machine, s: State :: s.Total() ==> Stretch(f, [ns[p]], seg, [ns[j]], s) == Stretch(f, x, seg, y, s)
    ensures SameMeaning(ns, merged)
  {
    SplitAt(ns, p, j);
    forall f: Machine, s: State | s.Total()
      ensures Run(f, ns, s) == Run(f, merged, s)
    {
      RunTotal(f, ns[..p], s);
      RunSplit(f, ns[..p], [ns[p]], seg, [ns[j]], ns[j + 1..], s);
      RunSplit(f, ns[..p], x, seg, y, ns[j + 1..], s);
      assert Stretch(f, [ns[p]], seg, [ns[j]], Run(f, ns[..p], s)) == Stretch(f, x, seg, y, Run(f, ns[..p], s));
    }
  }

  // ----- The four merges -----

  /** "a <- b + c ... *(a + m)" becomes "a <- b ... *(a += c)": the add turns into a copy at its own place. */
  function PreAddMerge(ns: seq<Node>, p: nat, j: nat, k: nat, m: MemRef, uid: nat): seq<Node>
    requires p < j < |ns| && ns[p].insn.Add? && ns[j].insn.Op? && k < |ns[j].insn.mems|
  {
    ns[p := Node(uid, NoLead, Move(ns[p].insn.res, ns[p].insn.reg0))]
      [j := ns[j].(insn := WithOperand(ns[j].insn, k, m))]
  }

  /** "a += c ... *(a + m)" becomes "... *(a += c)". */
  function PreIncMerge(ns: seq<Node>, p: nat, j: nat, k: nat, m: MemRef): seq<Node>
    requires p < j < |ns| && ns[j].insn.Op? && k < |ns[j].insn.mems|
  {
    Remove(ns[j := ns[j].(insn := WithOperand(ns[j].insn, k, m))], p)
  }

  /** "*(a + m) ... a += c" becomes "*(a += c) ...". */
  function PostIncMerge(ns: seq<Node>, p: nat, q: nat, k: nat, m: MemRef): seq<Node>
    requires p < q < |ns| && ns[p].insn.Op? && k < |ns[p].insn.mems|
  {
    Remove(ns[p := ns[p].(insn := WithOperand(ns[p].insn, k, m))], q)
  }

  /** "*(a + m) ... b <- a + c" becomes "b <- a; *(b += c) ...". */
  function PostAddMerge(ns: seq<Node>, p: nat, q: nat, k: nat, m: MemRef): seq<Node>
    requires p < q < |ns| && ns[q].insn.Add? && ns[p].insn.Op? && k < |ns[p].insn.mems|
  {
    Remove(ns[p := Node(ns[p].uid, Lead(ns[q].insn.res, ns[q].insn.reg0), WithOperand(ns[p].insn, k, m))], q)
  }

  /** Operand `m` updates `base` by `c` and reaches the address `off` beyond the value `base` has before the update. */
  predicate Advances(m: MemRef, base: Reg, c: int, off: int) {
    && m.addr.IsAuto() && m.addr.base == base && m.addr.Step(m.size) == c
    && (if m.addr.IsPre() then c == off else 0 == off)
  }

  /** The access after the add, against the auto-modify access without it. */
  lemma AccessAfterAdd(f: Machine, i: Insn, k: nat, m: MemRef, u: State, v: int, c: int)
    requires m.addr.IsAuto() && OnlyAt(i, m.addr.base, k) && !i.mems[k].addr.IsAuto()
    requires m.addr.Step(m.size) == c
    requires Effective(i.mems[k], u.regs[m.addr.base := v + c]) == Effective(m, u.regs[m.addr.base := v])
    ensures Step(f, i, SetReg(u, m.addr.base, v + c)) == Step(f, WithOperand(i, k, m), SetReg(u, m.addr.base, v))
  {
    var res := m.addr.base;
    var s := SetReg(u, res, v + c);
    assert s.regs[res := v] == u.regs[res := v];
    SwapOperand(f, i, k, m, s, v);
    StepKeeps(f, i, s, res);
    StepDomain(f, i, s, res);
    var after := Step(f, i, s);
    assert after.regs[res := v + c] == after.regs;
  }

  /** As AccessAfterAdd, for an instruction that may carry a leading copy of other registers. */
  lemma NodeAfterAdd(f: Machine, acc: Node, k: nat, m: MemRef, t: State, v: int, c: int, off: int)
    requires Advances(m, m.addr.base, c, off) && OnlyAt(acc.insn, m.addr.base, k)
    requires acc.lead.Lead? ==> acc.lead.dst != m.addr.base && acc.lead.src != m.addr.base
    requires var a := acc.insn.mems[k].addr;
             || a == Disp(m.addr.base, off - c)
             || (a.Disp? && a.base != m.addr.base && a.off == off && Get(t.regs, a.base) == v
                 && (acc.lead.Lead? ==> acc.lead.dst != a.base))
    ensures NodeStep(f, acc, SetReg(t, m.addr.base, v + c))
         == NodeStep(f, acc.(insn := WithOperand(acc.insn, k, m)), SetReg(t, m.addr.base, v))
  {
    if acc.lead.Lead? {
      var mov := Move(acc.lead.dst, acc.lead.src);
      StepFrame(f, mov, t, m.addr.base, v + c);
      StepFrame(f, mov, t, m.addr.base, v);
      AccessAfterAdd(f, acc.insn, k, m, Step(f, mov, t), v, c);
    } else {
      AccessAfterAdd(f, acc.insn, k, m, t, v, c);
    }
  }

  /** The add before the access at `j`: nothing between mentions the result register `res`, and operand `k` of the access
      either uses `res` or uses `src`, the register the add started from, which nothing between changes. */
  ghost predicate PreReady(seg: seq<Node>, acc: Node, k: nat, m: MemRef, add: Insn, off: int)
    requires add.Add?
  {
    && OnlyAt(acc.insn, add.res, k)
    && (acc.lead.Lead? ==> acc.lead.dst != add.res && acc.lead.src != add.res)
    && (forall i :: 0 <= i < |seg| ==> !seg[i].Refs(add.res))
    && Advances(m, add.res, add.val, off)
    && (|| acc.insn.mems[k].addr == Disp(add.res, off - add.val)
        || (&& add.reg0 != add.res && acc.insn.mems[k].addr == Disp(add.reg0, off)
            && (acc.lead.Lead? ==> acc.lead.dst != add.reg0)
            && forall i :: 0 <= i < |seg| ==> !seg[i].Defs(add.reg0)))
  }

  /** The state in front of the access is the one in front of the add, run through the instructions between, with
      only the result register changed. */
  lemma PreBetween(f: Machine, seg: seq<Node>, acc: Node, k: nat, m: MemRef, add: Insn, off: int, s: State, v: int)
    requires add.Add? && PreReady(seg, acc, k, m, add, off)
    ensures Run(f, seg, SetReg(s, add.res, v)) == SetReg(Run(f, seg, s), add.res, v)
    ensures acc.insn.mems[k].addr == Disp(add.res, off - add.val) || Get(Run(f, seg, s).regs, add.reg0) == Get(s.regs, add.reg0)
  {
    RunFrame(f, seg, s, add.res, v);
    if acc.insn.mems[k].addr != Disp(add.res, off - add.val) {
      RunKeeps(f, seg, s, add.reg0);
    }
  }

  lemma PreCore(f: Machine, seg: seq<Node>, acc: Node, k: nat, m: MemRef, add: Insn, off: int, s: State)
    requires add.Add? && PreReady(seg, acc, k, m, add, off)
    ensures NodeStep(f, acc, Run(f, seg, SetReg(s, add.res, Get(s.regs, add.reg0) + add.val)))
         == NodeStep(f, acc.(insn := WithOperand(acc.insn, k, m)), Run(f, seg, SetReg(s, add.res, Get(s.regs, add.reg0))))
  {
    var v := Get(s.regs, add.reg0);
    PreBetween(f, seg, acc, k, m, add, off, s, v + add.val);
    PreBetween(f, seg, acc, k, m, add, off, s, v);
    NodeAfterAdd(f, acc, k, m, Run(f, seg, s), v, add.val, off);
  }

  lemma PreStretch(f: Machine, seg: seq<Node>, acc: Node, k: nat, m: MemRef, add: Insn, off: int, s: State)
    requires add.Add? && PreReady(seg, acc, k, m, add, off)
    ensures NodeStep(f, acc, Run(f, seg, Step(f, add, s)))
         == NodeStep(f, acc.(insn := WithOperand(acc.insn, k, m)), Run(f, seg, SetReg(s, add.res, Get(s.regs, add.reg0))))
  {
    PreCore(f, seg, acc, k, m, add, off, s);
  }

  lemma PreAddPreserves(ns: seq<Node>, p: nat, j: nat, k: nat, m: MemRef, uid: nat, off: int)
    requires p < j < |ns| && ns[p].insn.Add? && ns[p].lead == NoLead
    requires PreReady(ns[p + 1..j], ns[j], k, m, ns[p].insn, off)
    ensures SameMeaning(ns, PreAddMerge(ns, p, j, k, m, uid))
  {
    var i := ns[p].insn;
    var mov := Node(uid, NoLead, Move(i.res, i.reg0));
    var acc := ns[j].(insn := WithOperand(ns[j].insn, k, m));
    var seg := ns[p + 1..j];
    forall f: Machine, s: State | s.Total()
      ensures Stretch(f, [ns[p]], seg, [ns[j]], s) == Stretch(f, [mov], seg, [acc], s)
    {
      RunOne(f, ns[p], s);
      RunOne(f, mov, s);
      PreStretch(f, seg, ns[j], k, m, i, off, s);
      RunOne(f, ns[j], Run(f, seg, Run(f, [ns[p]], s)));
      RunOne(f, acc, Run(f, seg, Run(f, [mov], s)));
    }
    Rewrite(ns, p, j, seg, PreAddMerge(ns, p, j, k, m, uid), [mov], [acc]);
  }

  lemma PreIncPreserves(ns: seq<Node>, p: nat, j: nat, k: nat, m: MemRef, off: int)
    requires p < j < |ns| && ns[p].insn.Add? && ns[p].lead == NoLead
    requires ns[p].insn.res == ns[p].insn.reg0
    requires PreReady(ns[p + 1..j], ns[j], k, m, ns[p].insn, off)
    ensures SameMeaning(ns, PreIncMerge(ns, p, j, k, m))
  {
    var i := ns[p].insn;
    var acc := ns[j].(insn := WithOperand(ns[j].insn, k, m));
    var seg := ns[p + 1..j];
    forall f: Machine, s: State | s.Total()
      ensures Stretch(f, [ns[p]], seg, [ns[j]], s) == Stretch(f, [], seg, [acc], s)
    {
      RunOne(f, ns[p], s);
      assert s.regs[i.res := Get(s.regs, i.res)] == s.regs;
      PreStretch(f, seg, ns[j], k, m, i, off, s);
      RunOne(f, ns[j], Run(f, seg, Run(f, [ns[p]], s)));
      RunOne(f, acc, Run(f, seg, s));
    }
    var merged := PreIncMerge(ns, p, j, k, m);
    assert merged == ns[..p] + ([] + (seg + ([acc] + ns[j + 1..])));
    Rewrite(ns, p, j, seg, merged, [], [acc]);
  }

  /** The access at the front of `seg` and the add behind it: nothing between mentions the result register or changes
      the register added to, and operand `k` of the access uses that register. */
  ghost predicate PostReady(acc: Node, seg: seq<Node>, k: nat, m: MemRef, add: Insn, off: int)
    requires add.Add?
  {
    && acc.lead == NoLead
    && OnlyAt(acc.insn, add.res, k)
    && !acc.insn.Defs(add.reg0)
    && (forall i :: 0 <= i < |seg| ==> !seg[i].Refs(add.res) && !seg[i].Defs(add.reg0))
    && Advances(m, add.res, add.val, off)
    && acc.insn.mems[k].addr == Disp(add.reg0, off)
  }

  /** The auto-modify access, entered with the result register holding the base, against the access and then the add. */
  lemma PostCore(f: Machine, acc: Node, seg: seq<Node>, k: nat, m: MemRef, add: Insn, off: int, s: State)
    requires add.Add? && PostReady(acc, seg, k, m, add, off)
    ensures Run(f, seg, Step(f, WithOperand(acc.insn, k, m), SetReg(s, add.res, Get(s.regs, add.reg0))))
         == Step(f, add, Run(f, seg, Step(f, acc.insn, s)))
  {
    hide Run;
    var v := Get(s.regs, add.reg0);
    assert Effective(acc.insn.mems[k], s.regs) == Effective(m, s.regs[add.res := v]);
    SwapOperand(f, acc.insn, k, m, s, v);
    var t := Step(f, acc.insn, s);
    StepKeeps(f, acc.insn, s, add.reg0);
    RunFrame(f, seg, t, add.res, v + add.val);
    RunKeeps(f, seg, t, add.reg0);
  }

  lemma PostIncPreserves(ns: seq<Node>, p: nat, q: nat, k: nat, m: MemRef, off: int)
    requires p < q < |ns| && ns[q].insn.Add? && ns[q].lead == NoLead
    requires ns[q].insn.res == ns[q].insn.reg0
    requires PostReady(ns[p], ns[p + 1..q], k, m, ns[q].insn, off)
    ensures SameMeaning(ns, PostIncMerge(ns, p, q, k, m))
  {
    var i := ns[q].insn;
    var acc := ns[p].(insn := WithOperand(ns[p].insn, k, m));
    var seg := ns[p + 1..q];
    forall f: Machine, s: State | s.Total()
      ensures Stretch(f, [ns[p]], seg, [ns[q]], s) == Stretch(f, [acc], seg, [], s)
    {
      RunOne(f, ns[p], s);
      RunOne(f, acc, s);
      assert s.regs[i.res := Get(s.regs, i.res)] == s.regs;
      PostCore(f, ns[p], seg, k, m, i, off, s);
      RunOne(f, ns[q], Run(f, seg, Run(f, [ns[p]], s)));
    }
    var merged := PostIncMerge(ns, p, q, k, m);
    assert merged == ns[..p] + ([acc] + (seg + ([] + ns[q + 1..])));
    Rewrite(ns, p, q, seg, merged, [acc], []);
  }

  lemma PostAddPreserves(ns: seq<Node>, p: nat, q: nat, k: nat, m: MemRef, off: int)
    requires p < q < |ns| && ns[q].insn.Add? && ns[q].lead == NoLead
    requires PostReady(ns[p], ns[p + 1..q], k, m, ns[q].insn, off)
    ensures SameMeaning(ns, PostAddMerge(ns, p, q, k, m))
  {
    var i := ns[q].insn;
    var acc := Node(ns[p].uid, Lead(i.res, i.reg0), WithOperand(ns[p].insn, k, m));
    var seg := ns[p + 1..q];
    forall f: Machine, s: State | s.Total()
      ensures Stretch(f, [ns[p]], seg, [ns[q]], s) == Stretch(f, [acc], seg, [], s)
    {
      RunOne(f, ns[p], s);
      RunOne(f, acc, s);
      PostCore(f, ns[p], seg, k, m, i, off, s);
      RunOne(f, ns[q], Run(f, seg, Run(f, [ns[p]], s)));
    }
    var merged := PostAddMerge(ns, p, q, k, m);
    assert merged == ns[..p] + ([acc] + (seg + ([] + ns[q + 1..])));
    Rewrite(ns, p, q, seg, merged, [acc], []);
  }
}
