/** Blocks on which the auto-increment pass, as written, does not preserve meaning.  Both go through the merge of
    "a <- b + c" with an access through `b`; CleanRun rules out exactly such steps. */
module AutoIncLimits {
  import opened Options
  import opened Rtl
  import opened AutoIncTable
  import opened AutoIncMerge
  import opened AutoIncArrays
  import opened AutoIncApprove
  import opened AutoIncSearch
  import opened AutoIncPass

  /** A target with post-increment and post-modify addressing on which every change is cheap and recognised. */
  ghost predicate PostModifyTarget(cfg: Config) {
    && cfg.Valid() && cfg.caps.postInc && cfg.caps.postDisp
    && cfg.frame > 10 && cfg.stack > 10
    && forall i, j, g :: cfg.accept(i, j, g)
  }

  // ----- A stale addition entry -----

  function Load(code: int, addr: Address, dst: Reg): Insn {
    Op(code, [MemRef(addr, 4, false)], [], [dst])
  }

  /** y <- *a; a <- b + 4; w <- *b; d <- a + 8, with a = 1, b = 2, d = 3, y = 4 and w = 5. */
  function StaleBlock(): seq<Insn> {
    [Load(0, Disp(1, 0), 4), Add(1, 2, false, 4), Load(1, Disp(2, 0), 5), Add(3, 1, false, 8)]
  }

  /** What the pass makes of it: d <- a; y <- *(d += 8); a <- b; w <- *(a++). */
  function StaleResult(): seq<Insn> {
    [Move(3, 1), Load(0, PostModify(3, 8), 4), Move(1, 2), Load(1, PostInc(1), 5)]
  }

  // The points of the scan, last instruction first.

  function Stale3(): Point {
    Point(Numbered(StaleBlock(), 0), Arrays(map[1 := 3], map[1 := 3], map[3 := 3]), 4)
  }

  function Stale2(): Point {
    Point(Numbered(StaleBlock(), 0), Arrays(map[1 := 3, 2 := 2], map[1 := 3], map[3 := 3, 5 := 2]), 4)
  }

  function Stale1(): Point {
    Point([Node(0, NoLead, Load(0, Disp(1, 0), 4)), Node(4, NoLead, Move(1, 2)),
           Node(2, NoLead, Load(1, PostInc(1), 5)), Node(3, NoLead, Add(3, 1, false, 8))],
          Arrays(map[2 := 4], map[1 := 3], map[3 := 3, 5 := 2, 1 := 4]), 5)
  }

  function Stale0(): seq<Node> {
    [Node(0, Lead(3, 1), Load(0, PostModify(3, 8), 4)), Node(4, NoLead, Move(1, 2)), Node(2, NoLead, Load(1, PostInc(1), 5))]
  }

  lemma StaleStep3(cfg: Config)
    requires PostModifyTarget(cfg)
    ensures Visit(cfg, Start(StaleBlock()), 3) == (Stale3(), false)
  {
    var st := Start(StaleBlock());
    assert st.nodes[3] == Node(3, NoLead, Add(3, 1, false, 8));
    assert FindResultUse(cfg, st.nodes, 3, st.arrays) == None;
    assert FindSourceUse(cfg, st.nodes, 3, st.arrays) == None;
    var a := EnterDefs(NO_ARRAYS, [3], 3);
    assert a == Arrays(map[], map[], map[3 := 3]);
    assert EnterUses(a, [1], 3, true) == Stale3().arrays;
  }

  lemma StaleEnter2()
    ensures Enter(Stale3().arrays, Load(1, Disp(2, 0), 5), 2, false) == Stale2().arrays
  {
    var i := Load(1, Disp(2, 0), 5);
    assert DefList(i) == [5] && UseList(i) == [2];
    var a := EnterDefs(Stale3().arrays, [5], 2);
    assert a == Arrays(map[1 := 3], map[1 := 3], map[3 := 3, 5 := 2]);
    assert EnterUses(a, [2], 2, false) == Stale2().arrays;
  }

  lemma StaleStep2(cfg: Config)
    requires PostModifyTarget(cfg)
    ensures Visit(cfg, Stale3(), 2) == (Stale2(), false)
  {
    hide Enter, PostApproved;
    var st := Stale3();
    assert st.nodes[2] == Node(2, NoLead, Load(1, Disp(2, 0), 5));
    assert FindIncFrom(cfg, st.nodes, 2, st.arrays, 0) == None;
    assert FindIncFrom(cfg, st.nodes, 2, st.arrays, 1) == None;
    StaleEnter2();
  }

  lemma StaleStep1(cfg: Config)
    requires PostModifyTarget(cfg)
    ensures Visit(cfg, Stale2(), 1) == (Stale1(), true)
    ensures !CleanStep(cfg, Stale2(), 1)
  {
    var st := Stale2();
    var add, acc := Add(1, 2, false, 4), Load(1, Disp(2, 0), 5);
    assert st.nodes[1] == Node(1, NoLead, add) && st.nodes[2] == Node(2, NoLead, acc);
    assert st.nodes[3] == Node(3, NoLead, Add(3, 1, false, 8));
    assert FindResultUse(cfg, st.nodes, 1, st.arrays) == None;
    assert Suits(acc, add, 2, 0);
    assert Chosen(cfg, add, -4, 4, FormPreAdd) == SimplePostInc;
    assert FindSourceUse(cfg, st.nodes, 1, st.arrays) == Some((2, 0));
    assert PreOperand(cfg, st.nodes, 1, 2, 0) == MemRef(PostInc(1), 4, false);
    assert acc.mems[0 := MemRef(PostInc(1), 4, false)] == [MemRef(PostInc(1), 4, false)];
    assert CommitSource(cfg, st, 1, 2, 0).nodes == Stale1().nodes;
    assert CommitSource(cfg, st, 1, 2, 0).arrays == Stale1().arrays;
  }

  lemma StaleEntries()
    ensures var st := Stale1();
            && EntryAt(st.nodes, 0, st.arrays.inc, 1) == 3 && EntryAt(st.nodes, 0, st.arrays.def, 3) == 3
            && EntryAt(st.nodes, 0, st.arrays.use, 3) == -1
  {
  }

  lemma StaleOccurrences()
    ensures Occurrences(Load(0, Disp(1, 0), 4), 1) == 1
  {
    var i := Load(0, Disp(1, 0), 4);
    assert CountIn([4], 1) == 0 && CountInMems(i.mems, 1) == 1;
  }

  lemma StalePermits(cfg: Config)
    requires PostModifyTarget(cfg)
    ensures Permits(cfg, Add(3, 1, false, 8), 0, MemRef(Disp(1, 0), 4, false), FormPostAdd, 3, 3, 0)
  {
    assert Chosen(cfg, Add(3, 1, false, 8), 0, 4, FormPostAdd) == DispPost;
  }

  lemma StaleStep0Approved(cfg: Config)
    requires PostModifyTarget(cfg)
    ensures PostApproved(cfg, Stale1().nodes, 0, Stale1().arrays, 3, 0)
  {
    hide EntryAt, Occurrences, Permits;
    StaleEntries();
    StaleOccurrences();
    StalePermits(cfg);
  }

  lemma StaleStep0(cfg: Config)
    requires PostModifyTarget(cfg)
    ensures Visit(cfg, Stale1(), 0).0.nodes == Stale0() && Visit(cfg, Stale1(), 0).1
  {
    hide PostApproved;
    var st := Stale1();
    StaleStep0Approved(cfg);
    assert EntryAt(st.nodes, 0, st.arrays.inc, 1) == 3;
    assert FindIncFrom(cfg, st.nodes, 0, st.arrays, 1) == Some((3, 0));
    var m := MemRef(PostModify(3, 8), 4, false);
    assert Chosen(cfg, Add(3, 1, false, 8), 0, 4, FormPostAdd) == DispPost;
    assert PostOperand(cfg, st.nodes, 0, 3, 0) == m;
    assert st.nodes[0].insn.mems[0 := m] == [m];
    assert PostMerged(cfg, st.nodes, 0, 3, 0) == Stale0();
  }

  lemma StaleScan(cfg: Config)
    requires PostModifyTarget(cfg)
    ensures Scanned(cfg, StaleBlock()).0.nodes == Stale0() && Scanned(cfg, StaleBlock()).1 == 2
  {
    StaleStep3(cfg);
    StaleStep2(cfg);
    StaleStep1(cfg);
    StaleStep0(cfg);
    hide Visit;
    assert ScanFrom(cfg, Visit(cfg, Stale1(), 0).0, 0).1 == 0;
    assert ScanFrom(cfg, Stale1(), 1).0.nodes == Stale0() && ScanFrom(cfg, Stale1(), 1).1 == 1;
    assert ScanFrom(cfg, Stale2(), 2).0.nodes == Stale0() && ScanFrom(cfg, Stale2(), 2).1 == 2;
    assert ScanFrom(cfg, Stale3(), 3).0.nodes == Stale0() && ScanFrom(cfg, Stale3(), 3).1 == 2;
  }

  ghost function ConstantMachine(): Machine {
    (code, eas, vals, mem) => ([0], mem)
  }

  /** Every register is zero but `b`, which is 100. */
  ghost function BaseState(): State {
    State(imap r: Reg | true :: BaseValue(r), map[])
  }

  function BaseValue(r: Reg): int {
    if r == 2 then 100 else 0
  }

  lemma StaleRunBefore()
    ensures Get(RunInsns(ConstantMachine(), StaleBlock(), BaseState()).regs, 3) == 112
  {
    var f, s := ConstantMachine(), BaseState();
    var s1 := Step(f, Load(0, Disp(1, 0), 4), s);
    LoadKeeps(f, 0, Disp(1, 0), 4, s, 2);
    var s2 := Step(f, Add(1, 2, false, 4), s1);
    var s3 := Step(f, Load(1, Disp(2, 0), 5), s2);
    LoadKeeps(f, 1, Disp(2, 0), 5, s2, 1);
    var s4 := Step(f, Add(3, 1, false, 8), s3);
    RunFour(f, StaleBlock(), s, s1, s2, s3, s4);
  }

  lemma LoadKeeps(f: Machine, code: int, addr: Address, dst: Reg, s: State, r: Reg)
    requires r != dst && (addr.IsAuto() ==> addr.base != r)
    ensures Get(Step(f, Load(code, addr, dst), s).regs, r) == Get(s.regs, r)
  {
    StepKeeps(f, Load(code, addr, dst), s, r);
  }

  lemma RunFour(f: Machine, insns: seq<Insn>, s: State, s1: State, s2: State, s3: State, s4: State)
    requires |insns| == 4
    requires s1 == Step(f, insns[0], s) && s2 == Step(f, insns[1], s1) && s3 == Step(f, insns[2], s2) && s4 == Step(f, insns[3], s3)
    ensures RunInsns(f, insns, s) == s4
  {
    hide Step;
    assert RunInsns(f, insns[1..][1..][1..][1..], s4) == s4;
    assert RunInsns(f, insns[1..][1..][1..], s3) == s4;
    assert RunInsns(f, insns[1..][1..], s2) == s4;
    assert RunInsns(f, insns[1..], s1) == s4;
  }

  lemma StaleRunAfter()
    ensures Get(RunInsns(ConstantMachine(), StaleResult(), BaseState()).regs, 3) == 8
  {
    var f, s := ConstantMachine(), BaseState();
    var s1 := Step(f, Move(3, 1), s);
    var i := Load(0, PostModify(3, 8), 4);
    var s2 := Step(f, i, s1);
    assert Get(s2.regs, 3) == 8 by {
      var (outs, mem) := f(0, EffectiveAll(i.mems, s1.regs), Values([], s1.regs), s1.mem);
      assert i.mems[..0] == [];
      assert s2.regs == BumpOne(i.mems[0], s1.regs, WriteDefs([4], outs, s1.regs));
    }
    var s3 := Step(f, Move(1, 2), s2);
    var s4 := Step(f, Load(1, PostInc(1), 5), s3);
    LoadKeeps(f, 1, PostInc(1), 5, s3, 3);
    RunFour(f, StaleResult(), s, s1, s2, s3, s4);
  }

  lemma StaleFlatten()
    ensures Flatten(Stale0()) == StaleResult()
  {
    assert Flatten(Stale0()[1..][1..][1..]) == [];
    assert Flatten(Stale0()[1..][1..]) == [Load(1, PostInc(1), 5)];
    assert Flatten(Stale0()[1..]) == [Move(1, 2), Load(1, PostInc(1), 5)];
  }

  lemma StaleMerge(cfg: Config)
    requires PostModifyTarget(cfg)
    ensures MergeInBlock(cfg, StaleBlock()) == StaleResult()
  {
    hide MergeInBlock, Scanned, Flatten;
    StaleScan(cfg);
    StaleFlatten();
    NoAdditionNoChange(cfg, StaleResult());
    MergeAgain(cfg, StaleBlock());
  }

  lemma StaleDiffers()
    ensures !SameProgram(StaleBlock(), StaleResult())
  {
    StaleRunBefore();
    StaleRunAfter();
    hide RunInsns;
    assert BaseState().Total();
  }

  /** The addition entry of `a` survives the copy into `a`, and the first access takes over an addition to another value
      of `a`: the pass turns the block into one that leaves another value in `d`. */
  lemma StaleEntryChangesMeaning(cfg: Config)
    requires PostModifyTarget(cfg)
    ensures !SameProgram(StaleBlock(), MergeInBlock(cfg, StaleBlock()))
    ensures !CleanRun(cfg, StaleBlock())
  {
    hide MergeInBlock, CleanRun, SameProgram;
    StaleMerge(cfg);
    StaleDiffers();
    if CleanRun(cfg, StaleBlock()) {
      MergePreservesMeaning(cfg, StaleBlock());
    }
  }

  /** A block without additions is left alone. */
  lemma NoAdditionNoChange(cfg: Config, insns: seq<Insn>)
    requires forall i :: 0 <= i < |insns| ==> !insns[i].Add?
    ensures MergeInBlock(cfg, insns) == insns
  {
    ScanCounts(cfg, insns);
    NoAdditionCount(Numbered(insns, 0));
  }

  lemma {:induction false} NoAdditionCount(ns: seq<Node>)
    requires forall i :: 0 <= i < |ns| ==> !ns[i].insn.Add?
    ensures AddCount(ns) == 0
  {
    if ns == [] {
    } else {
      NoAdditionCount(ns[1..]);
    }
  }

  // ----- A leading copy overtaken -----

  function Access(first: Address, second: Address): Insn {
    Op(0, [MemRef(first, 4, false), MemRef(second, 4, false)], [], [4])
  }

  /** a <- b + 4; y <- f(*a, *b); d <- a + 8. */
  function LeadBlock(): seq<Insn> {
    [Add(1, 2, false, 4), Access(Disp(1, 0), Disp(2, 0)), Add(3, 1, false, 8)]
  }

  /** a <- b; d <- a; y <- f(*(d += 8), *(a++)): the copy of `a` that belongs in front of the access now reads the wrong
      value. */
  function LeadResult(): seq<Insn> {
    [Move(1, 2), Move(3, 1), Access(PostModify(3, 8), PostInc(1))]
  }

  function Lead2(): Point {
    Point(Numbered(LeadBlock(), 0), Arrays(map[1 := 2], map[1 := 2], map[3 := 2]), 3)
  }

  function Lead1(): Point {
    Point([Node(0, NoLead, Add(1, 2, false, 4)), Node(1, Lead(3, 1), Access(PostModify(3, 8), Disp(2, 0)))],
          Arrays(map[1 := 1, 3 := 1, 2 := 1], map[], map[3 := 1, 4 := 1]), 3)
  }

  function Lead0(): seq<Node> {
    [Node(3, NoLead, Move(1, 2)), Node(1, Lead(3, 1), Access(PostModify(3, 8), PostInc(1)))]
  }

  lemma LeadStep2(cfg: Config)
    requires PostModifyTarget(cfg)
    ensures Visit(cfg, Start(LeadBlock()), 2) == (Lead2(), false)
  {
    var st := Start(LeadBlock());
    assert st.nodes[2] == Node(2, NoLead, Add(3, 1, false, 8));
    assert FindResultUse(cfg, st.nodes, 2, st.arrays) == None;
    assert FindSourceUse(cfg, st.nodes, 2, st.arrays) == None;
    var a := EnterDefs(NO_ARRAYS, [3], 2);
    assert a == Arrays(map[], map[], map[3 := 2]);
    assert EnterUses(a, [1], 2, true) == Lead2().arrays;
  }

  lemma LeadOccurrences()
    ensures Occurrences(Access(Disp(1, 0), Disp(2, 0)), 1) == 1
  {
    var i := Access(Disp(1, 0), Disp(2, 0));
    assert CountIn([4], 1) == 0 && CountInMems(i.mems[1..][1..], 1) == 0;
    assert CountInMems(i.mems[1..], 1) == 0 && CountInMems(i.mems, 1) == 1;
  }

  lemma LeadEntries()
    ensures var st := Lead2();
            && EntryAt(st.nodes, 1, st.arrays.inc, 1) == 2 && EntryAt(st.nodes, 1, st.arrays.def, 3) == 2
            && EntryAt(st.nodes, 1, st.arrays.use, 3) == -1 && EntryAt(st.nodes, 1, st.arrays.inc, 2) == -1
  {
  }

  lemma LeadPermits(cfg: Config)
    requires PostModifyTarget(cfg)
    ensures Permits(cfg, Add(3, 1, false, 8), 0, MemRef(Disp(1, 0), 4, false), FormPostAdd, 3, 2, 1)
  {
    assert Chosen(cfg, Add(3, 1, false, 8), 0, 4, FormPostAdd) == DispPost;
  }

  lemma LeadStep1Approved(cfg: Config)
    requires PostModifyTarget(cfg)
    ensures PostApproved(cfg, Lead2().nodes, 1, Lead2().arrays, 2, 0)
  {
    hide EntryAt, Occurrences, Permits;
    LeadEntries();
    LeadPermits(cfg);
    LeadOccurrences();
  }

  lemma LeadEnter1()
    ensures var i := Access(PostModify(3, 8), Disp(2, 0));
            Enter(PatchPost(Lead2().arrays, Add(3, 1, false, 8), 2, 1), i, 1, false) == Lead1().arrays
  {
    var i := Access(PostModify(3, 8), Disp(2, 0));
    LeadLists();
    var b := Arrays(map[1 := 1], map[], map[3 := 1, 4 := 1]);
    LeadEnterDefs(b);
    hide PatchPost, EnterDefs, DefList, UseList;
    assert [3, 2][1..] == [2];
    var c := Arrays(map[1 := 1, 3 := 1], map[], map[3 := 1, 4 := 1]);
    assert EnterUses(c, [2], 1, false) == Lead1().arrays;
    assert EnterUses(b, [3, 2], 1, false) == EnterUses(c, [2], 1, false);
  }

  lemma LeadLists()
    ensures var i := Access(PostModify(3, 8), Disp(2, 0)); DefList(i) == [4, 3] && UseList(i) == [3, 2]
  {
    var i := Access(PostModify(3, 8), Disp(2, 0));
    assert AutoBases(i.mems[1..]) == [] && AddressRegs(i.mems[1..]) == [2];
  }

  lemma LeadEnterDefs(b: Arrays)
    requires b == Arrays(map[1 := 1], map[], map[3 := 1, 4 := 1])
    ensures EnterDefs(PatchPost(Lead2().arrays, Add(3, 1, false, 8), 2, 1), [4, 3], 1) == b
  {
    var a := Arrays(map[1 := 1], map[], map[3 := 1]);
    assert PatchPost(Lead2().arrays, Add(3, 1, false, 8), 2, 1) == a;
    assert [4, 3][1..] == [3] && EnterDefs(b, [3], 1) == b && EnterDefs(a, [4, 3], 1) == b;
  }

  lemma LeadStep1(cfg: Config)
    requires PostModifyTarget(cfg)
    ensures Visit(cfg, Lead2(), 1) == (Lead1(), true)
  {
    hide PostApproved, EntryAt, Enter, PatchPost;
    var st := Lead2();
    LeadStep1Approved(cfg);
    LeadEntries();
    assert st.nodes[1].insn == Access(Disp(1, 0), Disp(2, 0)) && st.nodes[2].insn == Add(3, 1, false, 8);
    assert FindIncFrom(cfg, st.nodes, 1, st.arrays, 1) == Some((2, 0));
    assert FindIncFrom(cfg, st.nodes, 1, st.arrays, 2) == Some((2, 0));
    var m := MemRef(PostModify(3, 8), 4, false);
    assert Chosen(cfg, Add(3, 1, false, 8), 0, 4, FormPostAdd) == DispPost;
    assert PostOperand(cfg, st.nodes, 1, 2, 0) == m;
    assert st.nodes[1].insn.mems[0 := m] == [m, MemRef(Disp(2, 0), 4, false)];
    assert PostMerged(cfg, st.nodes, 1, 2, 0) == Lead1().nodes;
    LeadEnter1();
  }

  lemma LeadStep0(cfg: Config)
    requires PostModifyTarget(cfg)
    ensures Visit(cfg, Lead1(), 0).0.nodes == Lead0() && Visit(cfg, Lead1(), 0).1
  {
    var st := Lead1();
    var add, acc := Add(1, 2, false, 4), Access(PostModify(3, 8), Disp(2, 0));
    assert EntryAt(st.nodes, 0, st.arrays.use, 1) == 1 && EntryAt(st.nodes, 0, st.arrays.use, 2) == 1;
    assert EntryAt(st.nodes, 0, st.arrays.def, 1) == -1 && EntryAt(st.nodes, 0, st.arrays.def, 2) == -1;
    assert FindAddress(acc, add, 1, 2) == -1;
    assert FindResultUse(cfg, st.nodes, 0, st.arrays) == None;
    assert Suits(acc, add, 2, 1);
    assert Chosen(cfg, add, -4, 4, FormPreAdd) == SimplePostInc;
    assert FindSourceUse(cfg, st.nodes, 0, st.arrays) == Some((1, 1));
    var m := MemRef(PostInc(1), 4, false);
    assert PreOperand(cfg, st.nodes, 0, 1, 1) == m;
    assert acc.mems[1 := m] == [MemRef(PostModify(3, 8), 4, false), m];
    assert PreMerged(cfg, st.nodes, 0, 1, 1, 3) == Lead0();
  }

  lemma LeadMerge(cfg: Config)
    requires PostModifyTarget(cfg)
    ensures MergeInBlock(cfg, LeadBlock()) == LeadResult()
  {
    hide Visit, MergeInBlock, Flatten;
    LeadStep2(cfg);
    LeadStep1(cfg);
    LeadStep0(cfg);
    assert ScanFrom(cfg, Visit(cfg, Lead1(), 0).0, 0).1 == 0;
    assert ScanFrom(cfg, Lead1(), 1).0.nodes == Lead0() && ScanFrom(cfg, Lead1(), 1).1 == 1;
    assert ScanFrom(cfg, Lead2(), 2).0.nodes == Lead0() && ScanFrom(cfg, Lead2(), 2).1 == 2;
    LeadFlatten();
    NoAdditionNoChange(cfg, LeadResult());
    MergeAgain(cfg, LeadBlock());
  }

  lemma LeadFlatten()
    ensures Flatten(Lead0()) == LeadResult()
  {
    assert Flatten(Lead0()[1..][1..]) == [];
    assert Flatten(Lead0()[1..]) == [Move(3, 1), Access(PostModify(3, 8), PostInc(1))];
  }

  lemma RunThree(f: Machine, insns: seq<Insn>, s: State, s1: State, s2: State, s3: State)
    requires |insns| == 3
    requires s1 == Step(f, insns[0], s) && s2 == Step(f, insns[1], s1) && s3 == Step(f, insns[2], s2)
    ensures RunInsns(f, insns, s) == s3
  {
    hide Step;
    assert RunInsns(f, insns[1..][1..][1..], s3) == s3;
    assert RunInsns(f, insns[1..][1..], s2) == s3;
    assert RunInsns(f, insns[1..], s1) == s3;
  }

  lemma LeadDiffers()
    ensures !SameProgram(LeadBlock(), LeadResult())
  {
    var f, s := ConstantMachine(), BaseState();
    assert s.Total();
    var s1 := Step(f, Add(1, 2, false, 4), s);
    var s2 := Step(f, Access(Disp(1, 0), Disp(2, 0)), s1);
    StepKeeps(f, Access(Disp(1, 0), Disp(2, 0)), s1, 1);
    var s3 := Step(f, Add(3, 1, false, 8), s2);
    RunThree(f, LeadBlock(), s, s1, s2, s3);
    var t1 := Step(f, Move(1, 2), s);
    var t2 := Step(f, Move(3, 1), t1);
    var i := Access(PostModify(3, 8), PostInc(1));
    var t3 := Step(f, i, t2);
    LeadRunAfter(t2);
    RunThree(f, LeadResult(), s, t1, t2, t3);
  }

  lemma LeadRunAfter(s: State)
    ensures Get(Step(ConstantMachine(), Access(PostModify(3, 8), PostInc(1)), s).regs, 3) == Get(s.regs, 3) + 8
  {
    var f, i := ConstantMachine(), Access(PostModify(3, 8), PostInc(1));
    var (outs, mem) := f(0, EffectiveAll(i.mems, s.regs), Values([], s.regs), s.mem);
    var regs := WriteDefs([4], outs, s.regs);
    assert i.mems[..1][..0] == [];
    assert Bump(i.mems[..1], s.regs, regs) == BumpOne(i.mems[0], s.regs, regs);
  }

  /** A copy emitted in front of an access by an earlier merge of the same scan is invisible to the arrays, so an addition
      can be moved past it. */
  lemma OvertakenCopyChangesMeaning(cfg: Config)
    requires PostModifyTarget(cfg)
    ensures !SameProgram(LeadBlock(), MergeInBlock(cfg, LeadBlock()))
    ensures !CleanRun(cfg, LeadBlock())
  {
    hide MergeInBlock, CleanRun, SameProgram;
    LeadMerge(cfg);
    LeadDiffers();
    if CleanRun(cfg, LeadBlock()) {
      MergePreservesMeaning(cfg, LeadBlock());
    }
  }
}
