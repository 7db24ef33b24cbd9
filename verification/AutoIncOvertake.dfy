/** A merge that moves an addition past a copy of its result: it always changes the meaning of the block. */
module AutoIncOvertake {
  import opened Rtl
  import opened AutoIncMerge

  /** Memory used as a log: entries 0, 1, 2 and so on. */
  ghost predicate IsLog(mem: Memory) {
    forall x :: x in mem ==> 0 <= x < |mem|
  }

  /** The machine on which every instruction appends the address of its operand `x` to memory. */
  function Logger(x: nat): Machine {
    (code: int, addrs: seq<int>, vals: seq<int>, mem: Memory) => ([], mem[|mem| := if x < |addrs| then addrs[x] else 0])
  }

  /** What is in the log stays in it. */
  ghost predicate Keeps(before: Memory, after: Memory) {
    IsLog(after) && forall x :: x in before ==> x in after && after[x] == before[x]
  }

  lemma StepLogs(x: nat, i: Insn, s: State)
    requires IsLog(s.mem)
    ensures Keeps(s.mem, Step(Logger(x), i, s).mem)
  {
  }

  lemma {:induction false} RunLogs(x: nat, ns: seq<Node>, s: State)
    requires IsLog(s.mem)
    ensures Keeps(s.mem, Run(Logger(x), ns, s).mem)
    decreases |ns|
  {
    if ns == [] {
    } else {
      var n := ns[0];
      var t := if n.lead.Lead? then Step(Logger(x), Move(n.lead.dst, n.lead.src), s) else s;
      StepLogs(x, n.insn, t);
      RunLogs(x, ns[1..], NodeStep(Logger(x), n, s));
    }
  }

  /** An access led by a copy of `src`, the copy being the base of its auto-modify operand `x`, logs the value of `src`. */
  lemma LedAccessLogs(x: nat, n: Node, u: State, w: int)
    requires n.lead.Lead? && n.insn.Op? && x < |n.insn.mems|
    requires n.insn.mems[x].addr.IsAuto() && n.insn.mems[x].addr.base == n.lead.dst
    ensures var m := n.insn.mems[x];
            NodeStep(Logger(x), n, SetReg(u, n.lead.src, w)).mem ==
            u.mem[|u.mem| := w + if m.addr.IsPre() then m.addr.Step(m.size) else 0]
  {
    var s := SetReg(u, n.lead.src, w);
    var t := Step(Logger(x), Move(n.lead.dst, n.lead.src), s);
    assert EffectiveAll(n.insn.mems, t.regs)[x] == Effective(n.insn.mems[x], t.regs);
  }

  function Zero(r: Reg): int {
    0
  }

  ghost function Blank(): State {
    State(imap r: Reg :: Zero(r), map[])
  }

  /** Two runs that differ in one register in front of such an access end in different logs. */
  lemma LogsDiffer(x: nat, n: Node, n': Node, rest: seq<Node>, u: State, v: int, w: int)
    requires IsLog(u.mem) && v != w && n.lead.Lead? && n'.lead == n.lead
    requires n.insn.Op? && n'.insn.Op? && x < |n.insn.mems| && x < |n'.insn.mems| && n'.insn.mems[x] == n.insn.mems[x]
    requires n.insn.mems[x].addr.IsAuto() && n.insn.mems[x].addr.base == n.lead.dst
    ensures Run(Logger(x), rest, NodeStep(Logger(x), n, SetReg(u, n.lead.src, v)))
         != Run(Logger(x), rest, NodeStep(Logger(x), n', SetReg(u, n.lead.src, w)))
  {
    var a := NodeStep(Logger(x), n, SetReg(u, n.lead.src, v));
    var b := NodeStep(Logger(x), n', SetReg(u, n.lead.src, w));
    LedAccessLogs(x, n, u, v);
    LedAccessLogs(x, n', u, w);
    var key := |u.mem|;
    assert key in a.mem && key in b.mem && a.mem[key] != b.mem[key];
    hide NodeStep, Logger, Run;
    RunLogs(x, rest, a);
    RunLogs(x, rest, b);
  }

  /** The addition at `p` turned into a copy and taken over by the access at `j`, in front of which stands a copy of the
      addition's result: the copy, and with it an address the access uses, changes by the increment. */
  lemma OvertakingChangesMeaning(ns: seq<Node>, p: nat, j: nat, k: nat, m: MemRef, uid: nat, x: nat)
    requires p < j < |ns| && ns[p].insn.Add? && ns[p].lead == NoLead && ns[p].insn.val != 0
    requires forall i :: p < i < j ==> !ns[i].Refs(ns[p].insn.res)
    requires ns[j].lead.Lead? && ns[j].lead.src == ns[p].insn.res
    requires ns[j].insn.Op? && k < |ns[j].insn.mems| && x < |ns[j].insn.mems| && x != k
    requires ns[j].insn.mems[x].addr.IsAuto() && ns[j].insn.mems[x].addr.base == ns[j].lead.dst
    ensures !SameMeaning(ns, PreAddMerge(ns, p, j, k, m, uid))
  {
    var add, seg := ns[p].insn, ns[p + 1..j];
    var merged := PreAddMerge(ns, p, j, k, m, uid);
    SplitAt(ns, p, j);
    assert merged == ns[..p] + ([merged[p]] + (seg + ([merged[j]] + ns[j + 1..])));
    assert forall i :: 0 <= i < |seg| ==> !seg[i].Refs(add.res);
    CopyAgainstAdd(x, ns[..p], add, uid, seg, ns[j], merged[j], ns[j + 1..], ns[p].uid);
  }

  /** An addition, or a copy of the register added to, in front of such an access. */
  lemma CopyAgainstAdd(x: nat, a: seq<Node>, add: Insn, uid: nat, seg: seq<Node>, y: Node, y': Node, b: seq<Node>, uid': nat)
    requires add.Add? && add.val != 0 && forall i :: 0 <= i < |seg| ==> !seg[i].Refs(add.res)
    requires y.lead.Lead? && y'.lead == y.lead && y.lead.src == add.res
    requires y.insn.Op? && y'.insn.Op? && x < |y.insn.mems| && x < |y'.insn.mems| && y'.insn.mems[x] == y.insn.mems[x]
    requires y.insn.mems[x].addr.IsAuto() && y.insn.mems[x].addr.base == y.lead.dst
    ensures !SameMeaning(a + ([Node(uid', NoLead, add)] + (seg + ([y] + b))),
                         a + ([Node(uid, NoLead, Move(add.res, add.reg0))] + (seg + ([y'] + b))))
  {
    hide Run, SameMeaning, Logger;
    var f := Logger(x);
    var s := Run(f, a, Blank());
    var u, v := Run(f, seg, s), Get(s.regs, add.reg0);
    RunLogs(x, a, Blank());
    RunLogs(x, seg, s);
    SetBefore(f, a, Node(uid', NoLead, add), seg, y, b, Blank(), add.res, v + add.val);
    SetBefore(f, a, Node(uid, NoLead, Move(add.res, add.reg0)), seg, y', b, Blank(), add.res, v);
    LogsDiffer(x, y, y', b, u, v + add.val, v);
    Differ(a + ([Node(uid', NoLead, add)] + (seg + ([y] + b))),
           a + ([Node(uid, NoLead, Move(add.res, add.reg0))] + (seg + ([y'] + b))), f, Blank());
  }

  lemma Differ(a: seq<Node>, b: seq<Node>, f: Machine, s: State)
    requires s.Total() && Run(f, a, s) != Run(f, b, s)
    ensures !SameMeaning(a, b)
  {
  }

  /** A block that sets register `r` to `w` and does not mention it again until `y`. */
  lemma SetBefore(f: Machine, a: seq<Node>, n: Node, seg: seq<Node>, y: Node, b: seq<Node>, s: State, r: Reg, w: int)
    requires NodeStep(f, n, Run(f, a, s)) == SetReg(Run(f, a, s), r, w)
    requires forall i :: 0 <= i < |seg| ==> !seg[i].Refs(r)
    ensures Run(f, a + ([n] + (seg + ([y] + b))), s) == Run(f, b, NodeStep(f, y, SetReg(Run(f, seg, Run(f, a, s)), r, w)))
  {
    hide Run, NodeStep;
    RunSplit(f, a, [n], seg, [y], b, s);
    RunOne(f, n, Run(f, a, s));
    RunFrame(f, seg, Run(f, a, s), r, w);
    RunOne(f, y, SetReg(Run(f, seg, Run(f, a, s)), r, w));
  }
}
