/** The tests the auto-increment pass makes before a merge, what a committed merge writes into the arrays, and when an
    approved merge on sound arrays preserves the block's meaning. */
module AutoIncApprove {
  import opened Options
  import opened Rtl
  import opened AutoIncTable
  import opened AutoIncMerge
  import opened AutoIncArrays
  import opened AutoIncOvertake

  /** The parts of the target and of the rest of the compiler the pass consults.  `accept` stands for the cost
      comparison, the recognition of the new instruction and the absence of a death note for the updated register. */
  datatype Config = Config(caps: Caps, table: Table, frame: Reg, stack: Reg, accept: (nat, nat, GenForm) -> bool) {
    ghost predicate Valid() {
      forall inc, mem, form :: Lookup(table, inc, mem, form) == Decide(caps, inc, mem, form)
    }
  }

  /** The position of `uid` at or after `i`, or -1. */
  function Position(ns: seq<Node>, i: nat, uid: nat): (j: int)
    requires i <= |ns|
    ensures j == -1 || (i <= j < |ns| && ns[j].uid == uid)
    ensures j == -1 ==> forall x :: i <= x < |ns| ==> ns[x].uid != uid
    decreases |ns| - i
  {
    if i == |ns| then -1 else if ns[i].uid == uid then i else Position(ns, i + 1, uid)
  }

  /** The position the entry of `r` points to, or -1. */
  function EntryAt(ns: seq<Node>, p: nat, a: Next, r: Reg): (j: int)
    requires p < |ns|
    ensures j == -1 || p < j < |ns|
  {
    if r in a then Position(ns, p + 1, a[r]) else -1
  }

  // ----- Parsing the memory reference -----

  /** How often `r` occurs in an instruction other than an addition or copy. */
  function Occurrences(i: Insn, r: Reg): nat
    requires i.Op?
  {
    CountIn(i.uses, r) + CountIn(i.defs, r) + CountInMems(i.mems, r)
  }

  function CountIn(s: seq<Reg>, r: Reg): nat {
    if s == [] then 0 else (if s[0] == r then 1 else 0) + CountIn(s[1..], r)
  }

  function CountInMems(mems: seq<MemRef>, r: Reg): nat {
    if mems == [] then 0
    else
      var a := mems[0].addr;
      (if a.base == r then 1 else 0) + (if a.Index? && a.index == r then 1 else 0) + CountInMems(mems[1..], r)
  }

  /** The addition's result with no displacement or plus or minus the increment; or, when looking for the register added
      to, that register alone. */
  predicate Matches(m: MemRef, add: Insn, findReg: Reg)
    requires add.Add?
  {
    && m.addr.Disp? && m.addr.base == findReg
    && if findReg == add.res then m.addr.off == 0 || m.addr.off == add.val || m.addr.off == -add.val
       else m.addr.off == 0
  }

  /** Operand `k` is the only match and the result of the addition occurs nowhere else in the instruction. */
  predicate Suits(i: Insn, add: Insn, findReg: Reg, k: nat)
    requires add.Add?
  {
    && OnlyAt(i, add.res, k)
    && Matches(i.mems[k], add, findReg) && !i.mems[k].bitField
    && forall m :: 0 <= m < |i.mems| && m != k ==> !Matches(i.mems[m], add, findReg)
  }

  /** The last of the first `n` operands that suits, or -1. */
  function FindAddress(i: Insn, add: Insn, findReg: Reg, n: nat): (k: int)
    requires add.Add? && i.Op? && n <= |i.mems|
    ensures k == -1 || (0 <= k < n && Suits(i, add, findReg, k))
    ensures forall j :: 0 <= j < n && j > k ==> !Suits(i, add, findReg, j)
  {
    if n == 0 then -1 else if Suits(i, add, findReg, n - 1) then n - 1 else FindAddress(i, add, findReg, n - 1)
  }

  /** The displacement of the operand relative to the addition's result: an access through the register added to counts as
      displaced by minus the increment. */
  function Displacement(m: MemRef, add: Insn, findReg: Reg): int
    requires add.Add? && m.addr.Disp?
  {
    if findReg == add.res then m.addr.off else -add.val
  }

  // ----- The address to generate -----

  function Generated(g: GenForm, r: Reg, c: int, m: MemRef): MemRef
    requires g != Nothing && g != RegPre && g != RegPost
  {
    m.(addr := match g
               case SimplePreInc => PreInc(r)
               case SimplePostInc => PostInc(r)
               case SimplePreDec => PreDec(r)
               case SimplePostDec => PostDec(r)
               case DispPre => PreModify(r, c)
               case _ => PostModify(r, c))
  }

  function Chosen(cfg: Config, add: Insn, disp: int, size: int, form: Form): GenForm
    requires add.Add?
  {
    Lookup(cfg.table, SetIncState(add.val, size), SetIncState(disp, size), form)
  }

  /** The address taken from the table updates the base by the increment and reaches the address of the access. */
  lemma GeneratedAdvances(cfg: Config, add: Insn, disp: int, m: MemRef, form: Form, r: Reg)
    requires cfg.Valid() && add.Add? && (disp == 0 || disp == add.val || disp == -add.val)
    requires Chosen(cfg, add, disp, m.size, form) != Nothing
    ensures var g := Chosen(cfg, add, disp, m.size, form);
            && g != RegPre && g != RegPost
            && Advances(Generated(g, r, add.val, m), r, add.val, if form.IsPre() then add.val + disp else disp)
  {
    ConstantEntrySound(cfg.caps, m.size, add.val, disp, form);
  }

  predicate Permits(cfg: Config, add: Insn, disp: int, m: MemRef, form: Form, r: Reg, addUid: nat, memUid: nat)
    requires add.Add?
  {
    var g := Chosen(cfg, add, disp, m.size, form);
    r != cfg.stack && g != Nothing && g != RegPre && g != RegPost && cfg.accept(addUid, memUid, g)
  }

  function NewRef(cfg: Config, add: Insn, disp: int, m: MemRef, form: Form, r: Reg): MemRef
    requires add.Add?
  {
    var g := Chosen(cfg, add, disp, m.size, form);
    if g == Nothing || g == RegPre || g == RegPost then m else Generated(g, r, add.val, m)
  }

  // ----- The addition first -----

  predicate IsAddAt(cfg: Config, ns: seq<Node>, p: nat) {
    p < |ns| && Parses(ns[p].insn, cfg.frame)
  }

  function PreForm(add: Insn): Form
    requires add.Add?
  {
    if add.res == add.reg0 then FormPreInc else FormPreAdd
  }

  /** The next use of the result is an access that suits. */
  predicate PreApproved(cfg: Config, ns: seq<Node>, p: nat, a: Arrays, j: nat, k: nat) {
    && IsAddAt(cfg, ns, p) && EntryAt(ns, p, a.use, ns[p].insn.res) == j
    && ns[j].insn.Op? && FindAddress(ns[j].insn, ns[p].insn, ns[p].insn.res, |ns[j].insn.mems|) == k
    && var m := ns[j].insn.mems[k];
       Permits(cfg, ns[p].insn, m.addr.off, m, PreForm(ns[p].insn), ns[p].insn.res, ns[p].uid, ns[j].uid)
  }

  /** The next use of the register added to is an access that suits, and comes before the result or that register is set
      and not after the result is used. */
  predicate SourceApproved(cfg: Config, ns: seq<Node>, p: nat, a: Arrays, j: nat, k: nat) {
    && IsAddAt(cfg, ns, p) && ns[p].insn.res != ns[p].insn.reg0
    && EntryAt(ns, p, a.use, ns[p].insn.reg0) == j
    && !(EntryAt(ns, p, a.use, ns[p].insn.res) != -1 && j > EntryAt(ns, p, a.use, ns[p].insn.res))
    && !(EntryAt(ns, p, a.def, ns[p].insn.res) != -1 && j >= EntryAt(ns, p, a.def, ns[p].insn.res))
    && !(EntryAt(ns, p, a.def, ns[p].insn.reg0) != -1 && j > EntryAt(ns, p, a.def, ns[p].insn.reg0))
    && ns[j].insn.Op? && FindAddress(ns[j].insn, ns[p].insn, ns[p].insn.reg0, |ns[j].insn.mems|) == k
    && Permits(cfg, ns[p].insn, -ns[p].insn.val, ns[j].insn.mems[k], FormPreAdd, ns[p].insn.res, ns[p].uid, ns[j].uid)
  }

  /** The arrays after a merge that left a copy at the addition's place. */
  function PatchPreAdd(a: Arrays, add: Insn, mov: nat): Arrays
    requires add.Add?
  {
    Arrays((a.use - {add.res})[add.reg0 := mov], a.inc, a.def[add.res := mov])
  }

  /** The arrays after a merge that left nothing at the addition's place. */
  function PatchPreInc(a: Arrays, add: Insn, acc: nat): Arrays
    requires add.Add?
  {
    Arrays(a.use - {add.res}, a.inc, a.def[add.res := acc])
  }

  // ----- The access first -----

  function PostForm(add: Insn): Form
    requires add.Add?
  {
    if add.res == add.reg0 then FormPostInc else FormPostAdd
  }

  /** Operand `k` of the access at `p` and the addition at `q`. */
  predicate PostApproved(cfg: Config, ns: seq<Node>, p: nat, a: Arrays, q: nat, k: nat) {
    && p < |ns| && ns[p].insn.Op? && k < |ns[p].insn.mems|
    && var i, m := ns[p].insn, ns[p].insn.mems[k];
    && m.addr.Disp? && !m.bitField && Occurrences(i, m.addr.base) == 1
    && EntryAt(ns, p, a.inc, m.addr.base) == q && IsAddAt(cfg, ns, q)
    && var add := ns[q].insn;
    && !i.Defs(add.reg0) && !i.Defs(add.res)
    && (add.res != add.reg0 ==>
          && EntryAt(ns, p, a.def, add.res) == q
          && !(EntryAt(ns, p, a.use, add.res) != -1 && q > EntryAt(ns, p, a.use, add.res))
          && !i.Refs(add.res))
    && (m.addr.off == 0 || m.addr.off == add.val || m.addr.off == -add.val)
    && (add.res == add.reg0 ==> EntryAt(ns, p, a.use, add.reg0) == q)
    && Permits(cfg, add, m.addr.off, m, PostForm(add), add.res, ns[q].uid, ns[p].uid)
  }

  /** The arrays after the merge and before the access itself is entered. */
  function PatchPost(a: Arrays, add: Insn, addUid: nat, acc: nat): Arrays
    requires add.Add?
  {
    if add.res == add.reg0 then
      Arrays(a.use - {add.res},
             if Entry(a.use, add.res) == Entry(a.inc, add.res) then a.inc - {add.res} else a.inc,
             a.def[add.res := acc])
    else
      Arrays((a.use - {add.res})[add.reg0 := acc],
             if Entry(a.inc, add.reg0) == Some(acc) || Entry(a.inc, add.reg0) == Some(addUid) then a.inc - {add.reg0} else a.inc,
             a.def[add.res := acc])
  }

  // ----- Approved merges preserve meaning -----

  lemma {:induction false} CountInZero(s: seq<Reg>, r: Reg)
    requires CountIn(s, r) == 0
    ensures r !in s
  {
    if s == [] {
    } else {
      CountInZero(s[1..], r);
    }
  }

  lemma {:induction false} CountInMemsOnce(mems: seq<MemRef>, r: Reg, k: nat)
    requires k < |mems| && mems[k].addr.Mentions(r)
    ensures CountInMems(mems, r) >= 1
    ensures CountInMems(mems, r) == 1 ==> forall m :: 0 <= m < |mems| && m != k ==> !mems[m].addr.Mentions(r)
  {
    if k > 0 {
      CountInMemsOnce(mems[1..], r, k - 1);
      forall m | CountInMems(mems, r) == 1 && 0 <= m < |mems| && m != k
        ensures !mems[m].addr.Mentions(r)
      {
        if m > 0 { assert mems[m] == mems[1..][m - 1]; }
      }
    } else {
      forall m | CountInMems(mems, r) == 1 && 0 < m < |mems|
        ensures !mems[m].addr.Mentions(r)
      {
        assert mems[1..][m - 1] == mems[m];
        if mems[m].addr.Mentions(r) { CountInMemsOnce(mems[1..], r, m - 1); }
      }
    }
  }

  /** A register that occurs once, as the base of operand `k`, occurs nowhere else. */
  lemma OnceMeansOnlyAt(i: Insn, r: Reg, k: nat)
    requires i.Op? && k < |i.mems| && i.mems[k].addr.Mentions(r) && Occurrences(i, r) == 1
    ensures OnlyAt(i, r, k)
  {
    CountInMemsOnce(i.mems, r, k);
    CountInZero(i.uses, r);
    CountInZero(i.defs, r);
  }

  /** The leading copy of a node whose instruction has a plain operand with base `r` does not mention `r`. */
  lemma LeadAvoids(n: Node, r: Reg, k: nat)
    requires LeadOk(n) && n.insn.Op? && k < |n.insn.mems| && n.insn.mems[k].addr.Disp? && n.insn.mems[k].addr.base == r
    ensures n.lead.Lead? ==> n.lead.dst != r && n.lead.src != r
  {
    if n.lead.Lead? {
      assert n.insn.Uses(r);
    }
  }

  // ----- Reading the arrays -----

  lemma TailFormed(ns: seq<Node>, p: nat)
    requires WellFormed(ns) && p < |ns|
    ensures WellFormed(ns[p + 1..])
  {
  }

  lemma PositionFinds(ns: seq<Node>, p: nat, uid: nat, j: nat)
    requires WellFormed(ns) && p < j < |ns| && ns[j].uid == uid
    ensures Position(ns, p + 1, uid) == j
  {
  }

  /** A use entry points at the first mention. */
  lemma UseAt(ns: seq<Node>, p: nat, a: Arrays, r: Reg, j: nat)
    requires WellFormed(ns) && p < |ns| && SoundFor(ns[p + 1..], a, r) && EntryAt(ns, p, a.use, r) == j
    ensures NextRef(ns[p + 1..], r) == Some(ns[j])
    ensures forall x :: p < x < j ==> !ns[x].Refs(r)
  {
    var t := ns[p + 1..];
    TailFormed(ns, p);
    assert t[j - p - 1] == ns[j];
    NextRefAt(t, r, j - p - 1);
    forall x | p < x < j ensures !ns[x].Refs(r) { assert t[x - p - 1] == ns[x]; }
  }

  /** A definition entry points at the first definition, and there is none before it, or none at all. */
  lemma DefBefore(ns: seq<Node>, p: nat, a: Arrays, r: Reg, j: nat)
    requires WellFormed(ns) && p < |ns| && SoundFor(ns[p + 1..], a, r) && j <= |ns|
    requires EntryAt(ns, p, a.def, r) == -1 || j <= EntryAt(ns, p, a.def, r)
    ensures forall x :: p < x < j ==> !ns[x].Defs(r)
  {
    var t := ns[p + 1..];
    TailFormed(ns, p);
    if r in a.def {
      NextDefIn(t, r);
      var i :| 0 <= i < |t| && t[i].uid == NextDef(t, r).value;
      PositionFinds(ns, p, a.def[r], i + p + 1);
      NextDefAt(t, r, i);
    } else {
      NoDefAtAll(t, r);
    }
    forall x | p < x < j ensures !ns[x].Defs(r) { assert t[x - p - 1] == ns[x]; }
  }

  /** If neither a use nor a definition is recorded before `j`, the register is not mentioned before `j`. */
  lemma RefBefore(ns: seq<Node>, p: nat, a: Arrays, r: Reg, j: nat)
    requires WellFormed(ns) && p < |ns| && SoundFor(ns[p + 1..], a, r) && j <= |ns|
    requires EntryAt(ns, p, a.use, r) == -1 || j <= EntryAt(ns, p, a.use, r)
    requires EntryAt(ns, p, a.def, r) == -1 || j <= EntryAt(ns, p, a.def, r)
    ensures forall x :: p < x < j ==> !ns[x].Refs(r)
  {
    var t := ns[p + 1..];
    TailFormed(ns, p);
    DefBefore(ns, p, a, r, j);
    if NextRef(t, r).Some? {
      NextRefIn(t, r);
      var i :| 0 <= i < |t| && t[i] == NextRef(t, r).value;
      NextRefAt(t, r, i);
      if r in a.use {
        PositionFinds(ns, p, a.use[r], i + p + 1);
      }
      assert ns[i + p + 1] == t[i];
      forall x | p < x < j ensures !ns[x].Refs(r) { assert t[x - p - 1] == ns[x]; }
    } else {
      NoRefAtAll(t, r);
      forall x | p < x < j ensures !ns[x].Refs(r) { assert t[x - p - 1] == ns[x]; }
    }
  }

  lemma {:induction false} NoRefAtAll(t: seq<Node>, r: Reg)
    requires NextRef(t, r) == None
    ensures forall i :: 0 <= i < |t| ==> !t[i].Refs(r)
  {
    if t == [] {
    } else {
      NoRefAtAll(t[1..], r);
    }
  }

  /** An inc-use entry points at an addition to the register, reached without a definition of it. */
  lemma IncAt(ns: seq<Node>, p: nat, a: Arrays, r: Reg, q: nat)
    requires WellFormed(ns) && p < |ns| && SoundFor(ns[p + 1..], a, r) && EntryAt(ns, p, a.inc, r) == q
    ensures ns[q].insn.Add? && ns[q].lead == NoLead && ns[q].insn.reg0 == r
    ensures forall x :: p < x < q ==> !ns[x].Defs(r)
  {
    var t := ns[p + 1..];
    TailFormed(ns, p);
    assert t[q - p - 1] == ns[q];
    AddReachedAt(t, r, q - p - 1);
    forall x | p < x < q ensures !ns[x].Defs(r) { assert t[x - p - 1] == ns[x]; }
  }

  // ----- Approved merges preserve meaning -----

  /** What holds of the block and the arrays at scan point `p`. */
  ghost predicate Ready(cfg: Config, ns: seq<Node>, p: nat, a: Arrays) {
    cfg.Valid() && WellFormed(ns) && p < |ns| && ns[p].lead == NoLead && AllSound(ns[p + 1..], a)
  }

  function PreOperand(cfg: Config, ns: seq<Node>, p: nat, j: nat, k: nat): MemRef
    requires p < |ns| && j < |ns| && ns[p].insn.Add? && ns[j].insn.Op? && k < |ns[j].insn.mems|
    requires ns[j].insn.mems[k].addr.Disp?
  {
    var add, m := ns[p].insn, ns[j].insn.mems[k];
    var findReg := if m.addr.base == add.res then add.res else add.reg0;
    NewRef(cfg, add, Displacement(m, add, findReg), m, PreForm(add), add.res)
  }

  function PreMerged(cfg: Config, ns: seq<Node>, p: nat, j: nat, k: nat, mov: nat): seq<Node>
    requires p < j < |ns| && ns[p].insn.Add? && ns[j].insn.Op? && k < |ns[j].insn.mems|
    requires ns[j].insn.mems[k].addr.Disp?
  {
    var m := PreOperand(cfg, ns, p, j, k);
    if ns[p].insn.res == ns[p].insn.reg0 then PreIncMerge(ns, p, j, k, m) else PreAddMerge(ns, p, j, k, m, mov)
  }

  lemma PreApprovedReady(cfg: Config, ns: seq<Node>, p: nat, a: Arrays, j: nat, k: nat)
    requires Ready(cfg, ns, p, a) && PreApproved(cfg, ns, p, a, j, k)
    ensures var m := ns[j].insn.mems[k];
            PreReady(ns[p + 1..j], ns[j], k, PreOperand(cfg, ns, p, j, k), ns[p].insn, ns[p].insn.val + m.addr.off)
  {
    var add, m := ns[p].insn, ns[j].insn.mems[k];
    assert SoundFor(ns[p + 1..], a, add.res);
    UseAt(ns, p, a, add.res, j);
    GeneratedAdvances(cfg, add, m.addr.off, m, PreForm(add), add.res);
    LeadAvoids(ns[j], add.res, k);
  }

  /** The merge with the next use of the result. */
  lemma PreApprovedPreserves(cfg: Config, ns: seq<Node>, p: nat, a: Arrays, j: nat, k: nat, mov: nat)
    requires Ready(cfg, ns, p, a) && PreApproved(cfg, ns, p, a, j, k)
    ensures SameMeaning(ns, PreMerged(cfg, ns, p, j, k, mov))
  {
    PreApprovedReady(cfg, ns, p, a, j, k);
    var m, off := PreOperand(cfg, ns, p, j, k), ns[p].insn.val + ns[j].insn.mems[k].addr.off;
    if ns[p].insn.res == ns[p].insn.reg0 {
      PreIncPreserves(ns, p, j, k, m, off);
    } else {
      PreAddPreserves(ns, p, j, k, m, mov, off);
    }
  }

  lemma SourceApprovedReady(cfg: Config, ns: seq<Node>, p: nat, a: Arrays, j: nat, k: nat)
    requires Ready(cfg, ns, p, a) && SourceApproved(cfg, ns, p, a, j, k)
    requires !Overtakes(ns, p, j)
    ensures PreReady(ns[p + 1..j], ns[j], k, PreOperand(cfg, ns, p, j, k), ns[p].insn, 0)
  {
    var add, m := ns[p].insn, ns[j].insn.mems[k];
    assert SoundFor(ns[p + 1..], a, add.res);
    assert SoundFor(ns[p + 1..], a, add.reg0);
    RefBefore(ns, p, a, add.res, j);
    DefBefore(ns, p, a, add.reg0, j);
    DefBefore(ns, p, a, add.res, j + 1);
    GeneratedAdvances(cfg, add, -add.val, m, FormPreAdd, add.res);
    LeadAvoids(ns[j], add.reg0, k);
  }

  /** The access found through the register added to stands behind a copy of the addition's result. */
  predicate Overtakes(ns: seq<Node>, p: nat, j: nat)
    requires p < |ns| && j < |ns| && ns[p].insn.Add?
  {
    ns[j].lead.Lead? && ns[j].lead.src == ns[p].insn.res
  }

  /** The merge with the next use of the register added to preserves meaning if and only if it does not move the addition
      past a copy of its result. */
  lemma SourceApprovedPreserves(cfg: Config, ns: seq<Node>, p: nat, a: Arrays, j: nat, k: nat, mov: nat)
    requires Ready(cfg, ns, p, a) && SourceApproved(cfg, ns, p, a, j, k)
    ensures SameMeaning(ns, PreMerged(cfg, ns, p, j, k, mov)) <==> !Overtakes(ns, p, j)
  {
    hide SameMeaning;
    if Overtakes(ns, p, j) {
      SourceOvertakes(cfg, ns, p, a, j, k, mov);
    } else {
      SourceApprovedReady(cfg, ns, p, a, j, k);
      PreAddPreserves(ns, p, j, k, PreOperand(cfg, ns, p, j, k), mov, 0);
    }
  }

  lemma SourceOvertakes(cfg: Config, ns: seq<Node>, p: nat, a: Arrays, j: nat, k: nat, mov: nat)
    requires Ready(cfg, ns, p, a) && SourceApproved(cfg, ns, p, a, j, k) && Overtakes(ns, p, j)
    ensures !SameMeaning(ns, PreMerged(cfg, ns, p, j, k, mov))
  {
    hide SameMeaning, PreAddMerge;
    var add := ns[p].insn;
    assert SoundFor(ns[p + 1..], a, add.res);
    RefBefore(ns, p, a, add.res, j);
    PermitsNonzero(cfg, add, -add.val, ns[j].insn.mems[k], FormPreAdd, add.res, ns[p].uid, ns[j].uid);
    assert LeadOk(ns[j]);
    var x: nat :| OnlyAt(ns[j].insn, ns[j].lead.dst, x) && ns[j].insn.mems[x].addr.IsAuto()
                  && ns[j].insn.mems[x].addr.base == ns[j].lead.dst;
    OvertakingChangesMeaning(ns, p, j, k, PreOperand(cfg, ns, p, j, k), mov, x);
  }

  /** Nothing is merged with an addition of 0. */
  lemma PermitsNonzero(cfg: Config, add: Insn, disp: int, m: MemRef, form: Form, r: Reg, addUid: nat, memUid: nat)
    requires cfg.Valid() && add.Add? && Permits(cfg, add, disp, m, form, r, addUid, memUid)
    ensures add.val != 0
  {
  }

  function PostOperand(cfg: Config, ns: seq<Node>, p: nat, q: nat, k: nat): MemRef
    requires p < |ns| && q < |ns| && ns[q].insn.Add? && ns[p].insn.Op? && k < |ns[p].insn.mems|
    requires ns[p].insn.mems[k].addr.Disp?
  {
    var add, m := ns[q].insn, ns[p].insn.mems[k];
    NewRef(cfg, add, m.addr.off, m, PostForm(add), add.res)
  }

  function PostMerged(cfg: Config, ns: seq<Node>, p: nat, q: nat, k: nat): seq<Node>
    requires p < q < |ns| && ns[q].insn.Add? && ns[p].insn.Op? && k < |ns[p].insn.mems|
    requires ns[p].insn.mems[k].addr.Disp?
  {
    var m := PostOperand(cfg, ns, p, q, k);
    if ns[q].insn.res == ns[q].insn.reg0 then PostIncMerge(ns, p, q, k, m) else PostAddMerge(ns, p, q, k, m)
  }

  lemma PostApprovedReady(cfg: Config, ns: seq<Node>, p: nat, a: Arrays, q: nat, k: nat)
    requires Ready(cfg, ns, p, a) && PostApproved(cfg, ns, p, a, q, k)
    ensures ns[q].lead == NoLead && ns[q].insn.reg0 == ns[p].insn.mems[k].addr.base
    ensures PostReady(ns[p], ns[p + 1..q], k, PostOperand(cfg, ns, p, q, k), ns[q].insn, ns[p].insn.mems[k].addr.off)
  {
    var i, m, add := ns[p].insn, ns[p].insn.mems[k], ns[q].insn;
    assert SoundFor(ns[p + 1..], a, m.addr.base);
    assert SoundFor(ns[p + 1..], a, add.res);
    IncAt(ns, p, a, m.addr.base, q);
    GeneratedAdvances(cfg, add, m.addr.off, m, PostForm(add), add.res);
    if add.res == add.reg0 {
      UseAt(ns, p, a, add.res, q);
      OnceMeansOnlyAt(i, add.res, k);
    } else {
      RefBefore(ns, p, a, add.res, q);
      assert OnlyAt(i, add.res, k);
    }
  }

  /** The merge of an access with a later addition. */
  lemma PostApprovedPreserves(cfg: Config, ns: seq<Node>, p: nat, a: Arrays, q: nat, k: nat)
    requires Ready(cfg, ns, p, a) && PostApproved(cfg, ns, p, a, q, k)
    ensures SameMeaning(ns, PostMerged(cfg, ns, p, q, k))
  {
    PostApprovedReady(cfg, ns, p, a, q, k);
    var m, off := PostOperand(cfg, ns, p, q, k), ns[p].insn.mems[k].addr.off;
    if ns[q].insn.res == ns[q].insn.reg0 {
      PostIncPreserves(ns, p, q, k, m, off);
    } else {
      PostAddPreserves(ns, p, q, k, m, off);
    }
  }
}
