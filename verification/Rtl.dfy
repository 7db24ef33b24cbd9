/** Straight-line register-transfer code: instructions, the registers they mention, and what they do to a
    machine state.  This is the semantic picture against which the auto-increment pass is judged. */
module Rtl {

  type Reg = int

  /** The address operand of a memory reference.  The last six forms also update their base register. */
  datatype Address =
    | Disp(base: Reg, off: int)
    | Index(base: Reg, index: Reg)
    | PreInc(base: Reg)
    | PreDec(base: Reg)
    | PostInc(base: Reg)
    | PostDec(base: Reg)
    | PreModify(base: Reg, delta: int)
    | PostModify(base: Reg, delta: int)
  {
    predicate IsAuto() {
      !Disp? && !Index?
    }

    /** The amount an auto-modify form adds to its base when `size` bytes are accessed. */
    function Step(size: int): int
      requires IsAuto()
    {
      match this
      case PreInc(_) => size
      case PostInc(_) => size
      case PreDec(_) => -size
      case PostDec(_) => -size
      case PreModify(_, d) => d
      case PostModify(_, d) => d
    }

    predicate IsPre() {
      PreInc? || PreDec? || PreModify?
    }

    predicate Mentions(r: Reg) {
      base == r || (Index? && index == r)
    }
  }

  /** A memory operand: an address, the width of the access, and whether it sits inside a bit-field extract. */
  datatype MemRef = MemRef(addr: Address, size: nat, bitField: bool)

  /** `Add` is `res <- reg0 + val`, written in the instruction stream as PLUS `val` or, when `minus`, as MINUS `-val`.
      `Op` is any other non-jump instruction: it reads memory operands and registers and defines registers. */
  datatype Insn =
    | Add(res: Reg, reg0: Reg, minus: bool, val: int)
    | Move(dst: Reg, src: Reg)
    | Op(code: int, mems: seq<MemRef>, uses: seq<Reg>, defs: seq<Reg>)
  {
    /** The registers whose incoming value the instruction reads. */
    predicate Uses(r: Reg) {
      match this
      case Add(_, reg0, _, _) => r == reg0
      case Move(_, src) => r == src
      case Op(_, mems, uses, _) => r in uses || exists k :: 0 <= k < |mems| && mems[k].addr.Mentions(r)
    }

    /** The registers the instruction sets, including the base of an auto-modify address. */
    predicate Defs(r: Reg) {
      match this
      case Add(res, _, _, _) => r == res
      case Move(dst, _) => r == dst
      case Op(_, mems, _, defs) =>
        r in defs || exists k :: 0 <= k < |mems| && mems[k].addr.IsAuto() && mems[k].addr.base == r
    }

    predicate Refs(r: Reg) {
      Uses(r) || Defs(r)
    }
  }

  type Regs = imap<Reg, int>
  type Memory = map<int, int>
  datatype State = State(regs: Regs, mem: Memory) {
    /** Every register has a value. */
    ghost predicate Total() {
      forall r: Reg :: r in regs
    }
  }

  ghost function Get(regs: Regs, r: Reg): int {
    if r in regs then regs[r] else 0
  }

  /** The meaning of the opaque instructions: from the operation code, the effective addresses, the register operands
      and memory to the values of the defined registers and the new memory. */
  type Machine = (int, seq<int>, seq<int>, Memory) -> (seq<int>, Memory)

  /** The address a memory operand accesses. */
  ghost function Effective(m: MemRef, regs: Regs): int {
    match m.addr
    case Disp(b, off) => Get(regs, b) + off
    case Index(b, i) => Get(regs, b) + Get(regs, i)
    case _ => Get(regs, m.addr.base) + if m.addr.IsPre() then m.addr.Step(m.size) else 0
  }

  ghost function EffectiveAll(mems: seq<MemRef>, regs: Regs): seq<int> {
    seq(|mems|, k requires 0 <= k < |mems| => Effective(mems[k], regs))
  }

  ghost function Values(uses: seq<Reg>, regs: Regs): seq<int> {
    seq(|uses|, k requires 0 <= k < |uses| => Get(regs, uses[k]))
  }

  ghost function SetReg(s: State, r: Reg, v: int): State {
    s.(regs := s.regs[r := v])
  }

  ghost function WriteDefs(defs: seq<Reg>, outs: seq<int>, regs: Regs): Regs {
    if defs == [] then regs
    else
      var n := |defs| - 1;
      WriteDefs(defs[..n], outs, regs)[defs[n] := if n < |outs| then outs[n] else 0]
  }

  /** The base update of one operand, if it has one; `prior` holds the incoming register values. */
  ghost function BumpOne(m: MemRef, prior: Regs, regs: Regs): Regs {
    if m.addr.IsAuto() then regs[m.addr.base := Get(prior, m.addr.base) + m.addr.Step(m.size)] else regs
  }

  /** Applies the base updates of the auto-modify operands. */
  ghost function Bump(mems: seq<MemRef>, prior: Regs, regs: Regs): Regs {
    if mems == [] then regs
    else BumpOne(mems[|mems| - 1], prior, Bump(mems[..|mems| - 1], prior, regs))
  }

  ghost function Step(f: Machine, i: Insn, s: State): State {
    match i
    case Add(res, reg0, _, val) => SetReg(s, res, Get(s.regs, reg0) + val)
    case Move(dst, src) => SetReg(s, dst, Get(s.regs, src))
    case Op(code, mems, uses, defs) =>
      var (outs, mem) := f(code, EffectiveAll(mems, s.regs), Values(uses, s.regs), s.mem);
      State(Bump(mems, s.regs, WriteDefs(defs, outs, s.regs)), mem)
  }

  // ----- An unmentioned register commutes with an instruction -----

  lemma Commute(regs: Regs, a: Reg, x: int, b: Reg, y: int)
    requires a != b
    ensures regs[a := x][b := y] == regs[b := y][a := x]
  {
  }

  lemma BumpOneFrame(m: MemRef, prior: Regs, regs: Regs, r: Reg, v: int, w: int)
    requires !m.addr.Mentions(r)
    ensures BumpOne(m, prior[r := v], regs[r := w]) == BumpOne(m, prior, regs)[r := w]
  {
    if m.addr.IsAuto() {
      Commute(regs, r, w, m.addr.base, Get(prior, m.addr.base) + m.addr.Step(m.size));
    }
  }

  lemma {:induction false} WriteDefsFrame(defs: seq<Reg>, outs: seq<int>, regs: Regs, r: Reg, v: int)
    requires r !in defs
    ensures WriteDefs(defs, outs, regs[r := v]) == WriteDefs(defs, outs, regs)[r := v]
  {
    if defs == [] {
    } else {
      var n := |defs| - 1;
      WriteDefsFrame(defs[..n], outs, regs, r, v);
      assert defs[n] != r;
    }
  }

  lemma {:induction false} BumpFrame(mems: seq<MemRef>, prior: Regs, regs: Regs, r: Reg, v: int)
    requires forall k :: 0 <= k < |mems| ==> !mems[k].addr.Mentions(r)
    ensures Bump(mems, prior[r := v], regs[r := v]) == Bump(mems, prior, regs)[r := v]
  {
    if mems == [] {
    } else {
      var n := |mems| - 1;
      BumpFrame(mems[..n], prior, regs, r, v);
      BumpOneFrame(mems[n], prior, Bump(mems[..n], prior, regs), r, v, v);
    }
  }

  /** Running an instruction that does not mention `r` and setting `r` can be done in either order. */
  lemma StepFrame(f: Machine, i: Insn, s: State, r: Reg, v: int)
    requires !i.Refs(r)
    ensures Step(f, i, SetReg(s, r, v)) == SetReg(Step(f, i, s), r, v)
  {
    match i
    case Add(res, reg0, _, val) =>
      assert s.regs[r := v][res := Get(s.regs, reg0) + val] == s.regs[res := Get(s.regs, reg0) + val][r := v];
    case Move(dst, src) =>
      assert s.regs[r := v][dst := Get(s.regs, src)] == s.regs[dst := Get(s.regs, src)][r := v];
    case Op(code, mems, uses, defs) =>
      var t := SetReg(s, r, v);
      assert EffectiveAll(mems, t.regs) == EffectiveAll(mems, s.regs);
      assert Values(uses, t.regs) == Values(uses, s.regs);
      var (outs, mem) := f(code, EffectiveAll(mems, s.regs), Values(uses, s.regs), s.mem);
      WriteDefsFrame(defs, outs, s.regs, r, v);
      BumpFrame(mems, s.regs, WriteDefs(defs, outs, s.regs), r, v);
  }

  lemma {:induction false} WriteDefsKeeps(defs: seq<Reg>, outs: seq<int>, regs: Regs, r: Reg)
    requires r !in defs
    ensures Get(WriteDefs(defs, outs, regs), r) == Get(regs, r)
  {
    if defs == [] {
    } else {
      WriteDefsKeeps(defs[..|defs| - 1], outs, regs, r);
      assert defs[|defs| - 1] != r;
    }
  }

  lemma {:induction false} BumpKeeps(mems: seq<MemRef>, prior: Regs, regs: Regs, r: Reg)
    requires forall k :: 0 <= k < |mems| && mems[k].addr.IsAuto() ==> mems[k].addr.base != r
    ensures Get(Bump(mems, prior, regs), r) == Get(regs, r)
  {
    if mems == [] {
    } else {
      BumpKeeps(mems[..|mems| - 1], prior, regs, r);
    }
  }

  /** A register an instruction does not define keeps its value. */
  lemma StepKeeps(f: Machine, i: Insn, s: State, r: Reg)
    requires !i.Defs(r)
    ensures Get(Step(f, i, s).regs, r) == Get(s.regs, r)
  {
    if i.Op? {
      var (outs, mem) := f(i.code, EffectiveAll(i.mems, s.regs), Values(i.uses, s.regs), s.mem);
      WriteDefsKeeps(i.defs, outs, s.regs, r);
      BumpKeeps(i.mems, s.regs, WriteDefs(i.defs, outs, s.regs), r);
    }
  }

  lemma {:induction false} WriteDefsDomain(defs: seq<Reg>, outs: seq<int>, regs: Regs, r: Reg)
    requires r in regs
    ensures r in WriteDefs(defs, outs, regs)
  {
    if defs == [] {
    } else {
      WriteDefsDomain(defs[..|defs| - 1], outs, regs, r);
    }
  }

  lemma {:induction false} BumpDomain(mems: seq<MemRef>, prior: Regs, regs: Regs, r: Reg)
    requires r in regs
    ensures r in Bump(mems, prior, regs)
  {
    if mems == [] {
    } else {
      BumpDomain(mems[..|mems| - 1], prior, regs, r);
    }
  }

  /** No instruction takes the value of a register away. */
  lemma StepDomain(f: Machine, i: Insn, s: State, r: Reg)
    requires r in s.regs
    ensures r in Step(f, i, s).regs
  {
    if i.Op? {
      var (outs, mem) := f(i.code, EffectiveAll(i.mems, s.regs), Values(i.uses, s.regs), s.mem);
      WriteDefsDomain(i.defs, outs, s.regs, r);
      BumpDomain(i.mems, s.regs, WriteDefs(i.defs, outs, s.regs), r);
    }
  }

  lemma StepTotal(f: Machine, i: Insn, s: State)
    requires s.Total()
    ensures Step(f, i, s).Total()
  {
    forall r: Reg
      ensures r in Step(f, i, s).regs
    {
      StepDomain(f, i, s, r);
    }
  }
}
