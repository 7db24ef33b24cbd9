/** Which merges the auto-increment pass must find: opportunities read off the instructions and the target alone, and the theorem
    that the pass takes them until none is left. */
module AutoIncChances {
  import opened Options
  import opened Rtl
  import opened AutoIncTable
  import opened AutoIncMerge
  import opened AutoIncArrays
  import opened AutoIncApprove
  import opened AutoIncSearch
  import opened AutoIncPass

  // ----- Opportunities -----

  predicate IsSimple(h: GenForm) {
    h.SimplePreInc? || h.SimplePostInc? || h.SimplePreDec? || h.SimplePostDec?
  }

  predicate IsModify(h: GenForm) {
    h.DispPre? || h.DispPost?
  }

  /** `h` is an address form of the target with the effect of adding `c` and accessing `size` bytes at displacement `m`. */
  predicate Serves(caps: Caps, size: nat, form: Form, c: int, m: int, h: GenForm) {
    (IsSimple(h) || IsModify(h)) && Available(caps, h) && Realises(h, size, form, c, m)
  }

  /** ... and the best one: a form that adds the access size is preferred to one that adds any constant. */
  ghost predicate Best(caps: Caps, size: nat, form: Form, c: int, m: int, h: GenForm) {
    && c != 0 && (m == 0 || m == c || m == -c) && Serves(caps, size, form, c, m, h)
    && (IsModify(h) ==> forall g :: IsSimple(g) ==> !Serves(caps, size, form, c, m, g))
  }

  /** Nothing between `p` and `j` mentions `r`. */
  predicate Between(ns: seq<Node>, p: nat, j: nat, r: Reg)
    requires j <= |ns|
  {
    forall x :: p < x < j ==> !ns[x].Refs(r)
  }

  /** Operand `k` is `r + off`. */
  predicate PlainAt(i: Insn, k: nat, r: Reg) {
    i.Op? && k < |i.mems| && i.mems[k].addr.Disp? && i.mems[k].addr.base == r && !i.mems[k].bitField
  }

  /** An addition at `p`. */
  predicate AddAt(cfg: Config, ns: seq<Node>, p: nat) {
    p < |ns| && ns[p].insn.Add? && ns[p].insn.reg0 != cfg.frame
  }

  /** After the addition at `p` the first mention of its result is operand `k` of `j`, and its only one there. */
  ghost predicate ResultChance(cfg: Config, ns: seq<Node>, p: nat, j: nat, k: nat, h: GenForm) {
    && AddAt(cfg, ns, p) && p < j < |ns|
    && var add := ns[p].insn;
    && Between(ns, p, j, add.res) && PlainAt(ns[j].insn, k, add.res) && OnlyAt(ns[j].insn, add.res, k)
    && add.res != cfg.stack
    && Best(cfg.caps, ns[j].insn.mems[k].size, if add.res == add.reg0 then FormPreInc else FormPreAdd, add.val,
            ns[j].insn.mems[k].addr.off, h)
    && cfg.accept(ns[p].uid, ns[j].uid, h)
  }

  /** After the addition at `p` the first mention of the register added to is in `j`, where operand `k` is the one that is that
      register alone, and the result is not mentioned before or there. */
  ghost predicate SourceChance(cfg: Config, ns: seq<Node>, p: nat, j: nat, k: nat, h: GenForm) {
    && AddAt(cfg, ns, p) && p < j < |ns|
    && var add := ns[p].insn;
    && add.res != add.reg0
    && Between(ns, p, j, add.reg0) && Between(ns, p, j, add.res) && !ns[j].Refs(add.res)
    && PlainAt(ns[j].insn, k, add.reg0) && ns[j].insn.mems[k].addr.off == 0
    && (forall m :: 0 <= m < |ns[j].insn.mems| && m != k ==> ns[j].insn.mems[m].addr != Disp(add.reg0, 0))
    && add.res != cfg.stack
    && Best(cfg.caps, ns[j].insn.mems[k].size, FormPreAdd, add.val, -add.val, h)
    && cfg.accept(ns[p].uid, ns[j].uid, h)
  }

  /** After the access at `p` the first mention of the base of operand `k`, which occurs once in the access, is the addition to it
      at `q`; a result that is another register is not mentioned from the access up to the addition. */
  ghost predicate AccessChance(cfg: Config, ns: seq<Node>, p: nat, q: nat, k: nat, h: GenForm) {
    && AddAt(cfg, ns, q) && p < q
    && var add := ns[q].insn;
    && PlainAt(ns[p].insn, k, add.reg0) && OnlyAt(ns[p].insn, add.reg0, k) && Between(ns, p, q, add.reg0)
    && (add.res != add.reg0 ==> !ns[p].insn.Refs(add.res) && Between(ns, p, q, add.res))
    && add.res != cfg.stack
    && Best(cfg.caps, ns[p].insn.mems[k].size, if add.res == add.reg0 then FormPostInc else FormPostAdd, add.val,
            ns[p].insn.mems[k].addr.off, h)
    && cfg.accept(ns[q].uid, ns[p].uid, h)
  }

  /** Some merge is possible at `p`. */
  ghost predicate Chance(cfg: Config, ns: seq<Node>, p: nat) {
    exists j: nat, k: nat, h :: ResultChance(cfg, ns, p, j, k, h) || SourceChance(cfg, ns, p, j, k, h) || AccessChance(cfg, ns, p, j, k, h)
  }

  // ----- The form -----

  /** The table names the best form, and nothing if there is none. */
  lemma TableNamesBest(cfg: Config, add: Insn, disp: int, size: nat, form: Form, h: GenForm)
    requires cfg.Valid() && add.Add? && (disp == 0 || disp == add.val || disp == -add.val)
    ensures Best(cfg.caps, size, form, add.val, disp, h) <==>
            h == Chosen(cfg, add, disp, size, form) && h != Nothing && h != RegPre && h != RegPost
  {
    var g := Chosen(cfg, add, disp, size, form);
    assert g == Decide(cfg.caps, SetIncState(add.val, size), SetIncState(disp, size), form);
    if g != Nothing { ConstantEntrySound(cfg.caps, size, add.val, disp, form); }
    if Best(cfg.caps, size, form, add.val, disp, h) {
      ConstantEntryComplete(cfg.caps, size, add.val, disp, form, h);
      OneBest(cfg.caps, size, form, add.val, disp, g, h);
    }
    if g != Nothing && IsModify(g) {
      forall s | IsSimple(s) ensures !Serves(cfg.caps, size, form, add.val, disp, s) {
        if Serves(cfg.caps, size, form, add.val, disp, s) {
          SimplePreferred(cfg.caps, size, form, add.val, disp, s);
        }
      }
    }
  }

  lemma SimplePreferred(caps: Caps, size: nat, form: Form, c: int, m: int, s: GenForm)
    requires c != 0 && (m == 0 || m == c || m == -c) && IsSimple(s) && Serves(caps, size, form, c, m, s)
    ensures Decide(caps, SetIncState(c, size), SetIncState(m, size), form) == s
  {
  }

  lemma OneBest(caps: Caps, size: nat, form: Form, c: int, m: int, g: GenForm, h: GenForm)
    requires Best(caps, size, form, c, m, h) && g == Decide(caps, SetIncState(c, size), SetIncState(m, size), form)
    ensures g == h
  {
    if IsSimple(h) {
      SimplePreferred(caps, size, form, c, m, h);
    } else {
      ConstantEntryComplete(caps, size, c, m, form, h);
      ConstantEntrySound(caps, size, c, m, form);
      assert IsSimple(g) ==> !Serves(caps, size, form, c, m, g);
    }
  }

  lemma PermitsBest(cfg: Config, add: Insn, disp: int, m: MemRef, form: Form, r: Reg, addUid: nat, memUid: nat)
    requires cfg.Valid() && add.Add? && (disp == 0 || disp == add.val || disp == -add.val)
    ensures Permits(cfg, add, disp, m, form, r, addUid, memUid) <==>
            r != cfg.stack && exists h :: Best(cfg.caps, m.size, form, add.val, disp, h) && cfg.accept(addUid, memUid, h)
    ensures forall h :: Best(cfg.caps, m.size, form, add.val, disp, h) ==>
              NewRef(cfg, add, disp, m, form, r) == Generated(h, r, add.val, m)
  {
    hide Best, Chosen;
    forall h ensures Best(cfg.caps, m.size, form, add.val, disp, h) <==>
                     h == Chosen(cfg, add, disp, m.size, form) && h != Nothing && h != RegPre && h != RegPost {
      TableNamesBest(cfg, add, disp, m.size, form, h);
    }
  }

  // ----- Reading exact arrays -----

  /** The block and the arrays at scan point `p` before any merge. */
  ghost predicate AtExact(cfg: Config, ns: seq<Node>, p: nat, a: Arrays) {
    cfg.Valid() && WellFormed(ns) && AllPlain(ns) && p < |ns| && AllExact(ns[p + 1..], a, cfg.frame)
  }

  /** The first mention at or after `p + 1`, if it is at `j`. */
  lemma FirstMention(ns: seq<Node>, p: nat, j: nat, r: Reg)
    requires WellFormed(ns) && p < j < |ns|
    ensures Between(ns, p, j, r) && ns[j].Refs(r) ==> NextRef(ns[p + 1..], r) == Some(ns[j])
    ensures NextRef(ns[p + 1..], r).Some? && NextRef(ns[p + 1..], r).value.uid == ns[j].uid ==>
              NextRef(ns[p + 1..], r) == Some(ns[j]) && Between(ns, p, j, r) && ns[j].Refs(r)
  {
    var t := ns[p + 1..];
    TailFormed(ns, p);
    assert t[j - p - 1] == ns[j];
    if Between(ns, p, j, r) && ns[j].Refs(r) {
      FirstAt(t, j - p - 1, r);
    }
    if NextRef(t, r).Some? && NextRef(t, r).value.uid == ns[j].uid {
      NextRefAt(t, r, j - p - 1);
      forall x | p < x < j ensures !ns[x].Refs(r) { assert t[x - p - 1] == ns[x]; }
    }
  }

  /** An entry points to `j` exactly if it is the identifier there. */
  lemma EntryIs(ns: seq<Node>, p: nat, a: Next, r: Reg, j: nat)
    requires WellFormed(ns) && p < j < |ns|
    ensures EntryAt(ns, p, a, r) == j <==> Entry(a, r) == Some(ns[j].uid)
  {
    if Entry(a, r) == Some(ns[j].uid) { PositionFinds(ns, p, ns[j].uid, j); }
  }

  lemma UseExact(cfg: Config, ns: seq<Node>, p: nat, a: Arrays, r: Reg, j: nat)
    requires AtExact(cfg, ns, p, a) && p < j < |ns|
    ensures EntryAt(ns, p, a.use, r) == j <==> Between(ns, p, j, r) && ns[j].Uses(r)
    ensures EntryAt(ns, p, a.inc, r) == j <==> Between(ns, p, j, r) && ns[j].Uses(r) && Parses(ns[j].insn, cfg.frame)
  {
    hide WellFormed, Between;
    assert ExactFor(ns[p + 1..], a, r, cfg.frame);
    FirstMention(ns, p, j, r);
    EntryIs(ns, p, a.use, r, j);
    EntryIs(ns, p, a.inc, r, j);
  }

  /** No mention before `j`, in terms of the entries. */
  lemma BetweenExact(cfg: Config, ns: seq<Node>, p: nat, a: Arrays, r: Reg, j: nat)
    requires AtExact(cfg, ns, p, a) && p < j < |ns|
    ensures Between(ns, p, j, r) <==>
            && (EntryAt(ns, p, a.use, r) == -1 || j <= EntryAt(ns, p, a.use, r))
            && (EntryAt(ns, p, a.def, r) == -1 || j <= EntryAt(ns, p, a.def, r))
  {
    ExactReady(cfg, ns, p, a);
    assert SoundFor(ns[p + 1..], a, r);
    var u, d := EntryAt(ns, p, a.use, r), EntryAt(ns, p, a.def, r);
    if (u == -1 || j <= u) && (d == -1 || j <= d) {
      RefBefore(ns, p, a, r, j);
    }
    if u != -1 { UseExact(cfg, ns, p, a, r, u); }
    if d != -1 { DefExact(cfg, ns, p, a, r, d); }
  }

  lemma DefExact(cfg: Config, ns: seq<Node>, p: nat, a: Arrays, r: Reg, d: nat)
    requires AtExact(cfg, ns, p, a) && p < d < |ns|
    ensures EntryAt(ns, p, a.def, r) == d <==> ns[d].Defs(r) && forall x :: p < x < d ==> !ns[x].Defs(r)
  {
    var t := ns[p + 1..];
    TailFormed(ns, p);
    assert ExactFor(t, a, r, cfg.frame);
    EntryIs(ns, p, a.def, r, d);
    assert t[d - p - 1] == ns[d];
    if EntryAt(ns, p, a.def, r) == d {
      NextDefAt(t, r, d - p - 1);
      forall x | p < x < d ensures !ns[x].Defs(r) { assert t[x - p - 1] == ns[x]; }
    }
    if ns[d].Defs(r) && forall x :: p < x < d ==> !ns[x].Defs(r) {
      FirstDef(t, d - p - 1, r);
    }
  }

  lemma {:induction false} FirstDef(t: seq<Node>, j: nat, r: Reg)
    requires j < |t| && t[j].Defs(r) && forall i :: 0 <= i < j ==> !t[i].Defs(r)
    ensures NextDef(t, r) == Some(t[j].uid)
  {
    if j == 0 {
    } else {
      FirstDef(t[1..], j - 1, r);
    }
  }

  // ----- The tests find exactly the opportunities -----

  /** The one operand that suits is the one found. */
  lemma AddressFound(i: Insn, add: Insn, findReg: Reg, n: nat, k: nat)
    requires add.Add? && i.Op? && n <= |i.mems|
    ensures FindAddress(i, add, findReg, n) == k <==> k < n && Suits(i, add, findReg, k)
  {
    hide OnlyAt;
  }

  lemma BestDisplaced(caps: Caps, size: nat, form: Form, c: int, m: int, h: GenForm)
    requires Best(caps, size, form, c, m, h)
    ensures m == 0 || m == c || m == -c
  {
  }

  lemma OperandUses(n: Node, k: nat)
    requires n.insn.Op? && k < |n.insn.mems|
    ensures n.Uses(n.insn.mems[k].addr.base)
  {
    assert n.insn.mems[k].addr.Mentions(n.insn.mems[k].addr.base);
  }

  /** The operand that suits when the result is looked for. */
  lemma SuitsResult(i: Insn, add: Insn, k: nat)
    requires add.Add? && i.Op? && k < |i.mems|
    ensures Suits(i, add, add.res, k) <==>
            && PlainAt(i, k, add.res) && OnlyAt(i, add.res, k)
            && (i.mems[k].addr.off == 0 || i.mems[k].addr.off == add.val || i.mems[k].addr.off == -add.val)
  {
  }

  lemma ResultTaken(cfg: Config, ns: seq<Node>, p: nat, a: Arrays, j: nat, k: nat, h: GenForm)
    requires AtExact(cfg, ns, p, a) && ResultChance(cfg, ns, p, j, k, h)
    ensures PreApproved(cfg, ns, p, a, j, k)
  {
    hide Best, Permits, AllExact, WellFormed, Between, OnlyAt, FindAddress, Suits, EntryAt;
    var add, i := ns[p].insn, ns[j].insn;
    BestDisplaced(cfg.caps, i.mems[k].size, PreForm(add), add.val, i.mems[k].addr.off, h);
    OperandUses(ns[j], k);
    UseExact(cfg, ns, p, a, add.res, j);
    SuitsResult(i, add, k);
    AddressFound(i, add, add.res, |i.mems|, k);
    PermitsBest(cfg, add, i.mems[k].addr.off, i.mems[k], PreForm(add), add.res, ns[p].uid, ns[j].uid);
  }

  lemma ResultFound(cfg: Config, ns: seq<Node>, p: nat, a: Arrays, j: nat, k: nat) returns (h: GenForm)
    requires AtExact(cfg, ns, p, a) && PreApproved(cfg, ns, p, a, j, k)
    ensures ResultChance(cfg, ns, p, j, k, h)
  {
    hide Best, Permits, AllExact, WellFormed, Between, OnlyAt, FindAddress, Suits;
    var add, i := ns[p].insn, ns[j].insn;
    UseExact(cfg, ns, p, a, add.res, j);
    AddressFound(i, add, add.res, |i.mems|, k);
    SuitsResult(i, add, k);
    PermitsBest(cfg, add, i.mems[k].addr.off, i.mems[k], PreForm(add), add.res, ns[p].uid, ns[j].uid);
    h :| Best(cfg.caps, i.mems[k].size, PreForm(add), add.val, i.mems[k].addr.off, h) && cfg.accept(ns[p].uid, ns[j].uid, h);
  }

  /** The operand that suits when the register added to is looked for. */
  lemma SuitsSource(n: Node, add: Insn, k: nat)
    requires add.Add? && add.res != add.reg0 && n.insn.Op? && k < |n.insn.mems| && n.lead == NoLead && !n.Defs(add.res)
    ensures Suits(n.insn, add, add.reg0, k) <==>
            && PlainAt(n.insn, k, add.reg0) && n.insn.mems[k].addr.off == 0 && !n.Refs(add.res)
            && (forall m :: 0 <= m < |n.insn.mems| && m != k ==> n.insn.mems[m].addr != Disp(add.reg0, 0))
  {
  }

  lemma SourceTaken(cfg: Config, ns: seq<Node>, p: nat, a: Arrays, j: nat, k: nat, h: GenForm)
    requires AtExact(cfg, ns, p, a) && SourceChance(cfg, ns, p, j, k, h)
    ensures SourceApproved(cfg, ns, p, a, j, k)
  {
    hide Best, Permits, AllExact, WellFormed, Between, FindAddress, Suits, EntryAt;
    var add, i := ns[p].insn, ns[j].insn;
    OperandUses(ns[j], k);
    UseExact(cfg, ns, p, a, add.reg0, j);
    BetweenExact(cfg, ns, p, a, add.res, j);
    BetweenExact(cfg, ns, p, a, add.reg0, j);
    DefExact(cfg, ns, p, a, add.res, j);
    SuitsSource(ns[j], add, k);
    AddressFound(i, add, add.reg0, |i.mems|, k);
    PermitsBest(cfg, add, -add.val, i.mems[k], FormPreAdd, add.res, ns[p].uid, ns[j].uid);
  }

  lemma SourceFound(cfg: Config, ns: seq<Node>, p: nat, a: Arrays, j: nat, k: nat) returns (h: GenForm)
    requires AtExact(cfg, ns, p, a) && SourceApproved(cfg, ns, p, a, j, k)
    ensures SourceChance(cfg, ns, p, j, k, h)
  {
    hide Best, Permits, AllExact, WellFormed, Between, FindAddress, Suits;
    var add, i := ns[p].insn, ns[j].insn;
    UseExact(cfg, ns, p, a, add.reg0, j);
    BetweenExact(cfg, ns, p, a, add.res, j);
    NotDefinedAt(cfg, ns, p, a, add.res, j);
    AddressFound(i, add, add.reg0, |i.mems|, k);
    SuitsSource(ns[j], add, k);
    PermitsBest(cfg, add, -add.val, i.mems[k], FormPreAdd, add.res, ns[p].uid, ns[j].uid);
    h :| Best(cfg.caps, i.mems[k].size, FormPreAdd, add.val, -add.val, h) && cfg.accept(ns[p].uid, ns[j].uid, h);
  }

  lemma NotDefinedAt(cfg: Config, ns: seq<Node>, p: nat, a: Arrays, r: Reg, j: nat)
    requires AtExact(cfg, ns, p, a) && p < j < |ns| && Between(ns, p, j, r)
    requires EntryAt(ns, p, a.def, r) == -1 || j < EntryAt(ns, p, a.def, r)
    ensures !ns[j].Defs(r)
  {
    DefExact(cfg, ns, p, a, r, j);
  }

  /** A register occurs once in an access, as the base of operand `k`, exactly if it occurs nowhere else. */
  lemma OccursOnce(i: Insn, k: nat)
    requires i.Op? && k < |i.mems| && i.mems[k].addr.Disp?
    ensures Occurrences(i, i.mems[k].addr.base) == 1 <==> OnlyAt(i, i.mems[k].addr.base, k)
  {
    var r := i.mems[k].addr.base;
    assert i.mems[k].addr.Mentions(r);
    if Occurrences(i, r) == 1 { OnceMeansOnlyAt(i, r, k); }
    if OnlyAt(i, r, k) {
      CountAbsent(i.uses, r);
      CountAbsent(i.defs, r);
      CountOne(i.mems, r, k);
    }
  }

  lemma {:induction false} CountAbsent(s: seq<Reg>, r: Reg)
    requires r !in s
    ensures CountIn(s, r) == 0
  {
    if s == [] {
    } else {
      CountAbsent(s[1..], r);
    }
  }

  lemma {:induction false} CountNone(mems: seq<MemRef>, r: Reg)
    requires forall m :: 0 <= m < |mems| ==> !mems[m].addr.Mentions(r)
    ensures CountInMems(mems, r) == 0
  {
    if mems == [] {
    } else {
      assert !mems[0].addr.Mentions(r);
      CountNone(mems[1..], r);
    }
  }

  lemma {:induction false} CountOne(mems: seq<MemRef>, r: Reg, k: nat)
    requires k < |mems| && mems[k].addr.Disp? && mems[k].addr.base == r
    requires forall m :: 0 <= m < |mems| && m != k ==> !mems[m].addr.Mentions(r)
    ensures CountInMems(mems, r) == 1
  {
    if k == 0 {
      forall m | 0 <= m < |mems[1..]| ensures !mems[1..][m].addr.Mentions(r) { assert mems[1..][m] == mems[m + 1]; }
      CountNone(mems[1..], r);
    } else {
      assert !mems[0].addr.Mentions(r);
      CountOne(mems[1..], r, k - 1);
    }
  }

  lemma AccessTaken(cfg: Config, ns: seq<Node>, p: nat, a: Arrays, q: nat, k: nat, h: GenForm)
    requires AtExact(cfg, ns, p, a) && AccessChance(cfg, ns, p, q, k, h)
    ensures PostApproved(cfg, ns, p, a, q, k)
  {
    hide Best, Permits, AllExact, WellFormed, Between, EntryAt, Occurrences;
    var i, m, add := ns[p].insn, ns[p].insn.mems[k], ns[q].insn;
    BestDisplaced(cfg.caps, m.size, PostForm(add), add.val, m.addr.off, h);
    OccursOnce(i, k);
    UseExact(cfg, ns, p, a, add.reg0, q);
    if add.res != add.reg0 {
      BetweenExact(cfg, ns, p, a, add.res, q);
      BetweenNoDef(ns, p, q, add.res);
      DefExact(cfg, ns, p, a, add.res, q);
    }
    PermitsBest(cfg, add, m.addr.off, m, PostForm(add), add.res, ns[q].uid, ns[p].uid);
  }

  lemma BetweenNoDef(ns: seq<Node>, p: nat, j: nat, r: Reg)
    requires j <= |ns| && Between(ns, p, j, r)
    ensures forall x :: p < x < j ==> !ns[x].Defs(r)
  {
  }

  lemma AccessFound(cfg: Config, ns: seq<Node>, p: nat, a: Arrays, q: nat, k: nat) returns (h: GenForm)
    requires AtExact(cfg, ns, p, a) && PostApproved(cfg, ns, p, a, q, k)
    ensures AccessChance(cfg, ns, p, q, k, h)
  {
    hide Best, Permits, AllExact, WellFormed, Between, Occurrences;
    var i, m, add := ns[p].insn, ns[p].insn.mems[k], ns[q].insn;
    OccursOnce(i, k);
    UseExact(cfg, ns, p, a, m.addr.base, q);
    if add.res != add.reg0 {
      BetweenExact(cfg, ns, p, a, add.res, q);
    }
    PermitsBest(cfg, add, m.addr.off, m, PostForm(add), add.res, ns[q].uid, ns[p].uid);
    h :| Best(cfg.caps, m.size, PostForm(add), add.val, m.addr.off, h) && cfg.accept(ns[q].uid, ns[p].uid, h);
  }

  // ----- One step -----

  /** Before any merge a step of the scan merges something if and only if there is an opportunity at its place. */
  lemma MergesIffChance(cfg: Config, st: Point, p: nat)
    requires AtExact(cfg, st.nodes, p, st.arrays)
    ensures Visit(cfg, st, p).1 <==> Chance(cfg, st.nodes, p)
  {
    hide ResultChance, SourceChance, AccessChance, PreApproved, SourceApproved, PostApproved, AllExact;
    var ns, a := st.nodes, st.arrays;
    if Chance(cfg, ns, p) {
      var j: nat, k: nat, h :|
        ResultChance(cfg, ns, p, j, k, h) || SourceChance(cfg, ns, p, j, k, h) || AccessChance(cfg, ns, p, j, k, h);
      ChanceTaken(cfg, st, p, j, k, h);
    }
    if Visit(cfg, st, p).1 {
      MergeHadChance(cfg, st, p);
    }
  }

  lemma ChanceTaken(cfg: Config, st: Point, p: nat, j: nat, k: nat, h: GenForm)
    requires AtExact(cfg, st.nodes, p, st.arrays)
    requires || ResultChance(cfg, st.nodes, p, j, k, h) || SourceChance(cfg, st.nodes, p, j, k, h)
             || AccessChance(cfg, st.nodes, p, j, k, h)
    ensures Visit(cfg, st, p).1
  {
    hide PreApproved, SourceApproved, PostApproved, AtExact, Best, Between, OnlyAt;
    if ResultChance(cfg, st.nodes, p, j, k, h) {
      ResultTaken(cfg, st.nodes, p, st.arrays, j, k, h);
    } else if SourceChance(cfg, st.nodes, p, j, k, h) {
      SourceTaken(cfg, st.nodes, p, st.arrays, j, k, h);
    } else {
      AccessTaken(cfg, st.nodes, p, st.arrays, j, k, h);
    }
  }

  lemma MergeHadChance(cfg: Config, st: Point, p: nat)
    requires AtExact(cfg, st.nodes, p, st.arrays) && Visit(cfg, st, p).1
    ensures Chance(cfg, st.nodes, p)
  {
    hide ResultChance, SourceChance, AccessChance, PreApproved, SourceApproved, PostApproved;
    var ns, a := st.nodes, st.arrays;
    if IsAddAt(cfg, ns, p) {
      var byResult, bySource := FindResultUse(cfg, ns, p, a), FindSourceUse(cfg, ns, p, a);
      if byResult.Some? {
        var h := ResultFound(cfg, ns, p, a, byResult.value.0, byResult.value.1);
      } else {
        var h := SourceFound(cfg, ns, p, a, bySource.value.0, bySource.value.1);
      }
    } else {
      var found := FindInc(cfg, st, p);
      var h := AccessFound(cfg, ns, p, a, found.value.0, found.value.1);
    }
  }

  /** The merge a step makes of an opportunity through the result: the access takes over the addition in the best form. */
  lemma ResultMergeMade(cfg: Config, st: Point, p: nat, j: nat, k: nat, h: GenForm)
    requires AtExact(cfg, st.nodes, p, st.arrays) && ResultChance(cfg, st.nodes, p, j, k, h)
    ensures var ns, add := st.nodes, st.nodes[p].insn;
            var m := Generated(h, add.res, add.val, ns[j].insn.mems[k]);
            Visit(cfg, st, p).0.nodes ==
            if add.res == add.reg0 then PreIncMerge(ns, p, j, k, m) else PreAddMerge(ns, p, j, k, m, st.limit)
  {
    hide Permits, AllExact, WellFormed, Between, OnlyAt, FindAddress, EntryAt, Best, NewRef;
    var ns, add, i := st.nodes, st.nodes[p].insn, st.nodes[j].insn;
    ResultTaken(cfg, ns, p, st.arrays, j, k, h);
    BestDisplaced(cfg.caps, i.mems[k].size, PreForm(add), add.val, i.mems[k].addr.off, h);
    PermitsBest(cfg, add, i.mems[k].addr.off, i.mems[k], PreForm(add), add.res, ns[p].uid, ns[j].uid);
  }

  /** Only where there is no such opportunity is the register added to tried. */
  lemma SourceMergeMade(cfg: Config, st: Point, p: nat, j: nat, k: nat, h: GenForm)
    requires AtExact(cfg, st.nodes, p, st.arrays) && SourceChance(cfg, st.nodes, p, j, k, h)
    requires forall i: nat, l: nat, g :: !ResultChance(cfg, st.nodes, p, i, l, g)
    ensures var ns, add := st.nodes, st.nodes[p].insn;
            Visit(cfg, st, p).0.nodes == PreAddMerge(ns, p, j, k, Generated(h, add.res, add.val, ns[j].insn.mems[k]), st.limit)
  {
    hide Permits, AllExact, WellFormed, Between, OnlyAt, FindAddress, EntryAt, Best, NewRef, ResultChance;
    var ns, add, i := st.nodes, st.nodes[p].insn, st.nodes[j].insn;
    var byResult := FindResultUse(cfg, ns, p, st.arrays);
    if byResult.Some? {
      var g := ResultFound(cfg, ns, p, st.arrays, byResult.value.0, byResult.value.1);
      assert false;
    }
    SourceTaken(cfg, ns, p, st.arrays, j, k, h);
    PermitsBest(cfg, add, -add.val, i.mems[k], FormPreAdd, add.res, ns[p].uid, ns[j].uid);
  }

  /** Of the operands of an access with an opportunity the last one takes over the addition. */
  lemma AccessMergeMade(cfg: Config, st: Point, p: nat, q: nat, k: nat, h: GenForm)
    requires AtExact(cfg, st.nodes, p, st.arrays) && AccessChance(cfg, st.nodes, p, q, k, h)
    requires forall i: nat, l: nat, g :: l > k ==> !AccessChance(cfg, st.nodes, p, i, l, g)
    ensures var ns, add := st.nodes, st.nodes[q].insn;
            var m := Generated(h, add.res, add.val, ns[p].insn.mems[k]);
            Visit(cfg, st, p).0.nodes ==
            if add.res == add.reg0 then PostIncMerge(ns, p, q, k, m) else PostAddMerge(ns, p, q, k, m)
  {
    hide Permits, AllExact, WellFormed, Between, OnlyAt, EntryAt, Best, NewRef, Occurrences, Enter;
    var ns, i, add := st.nodes, st.nodes[p].insn, st.nodes[q].insn;
    AccessTaken(cfg, ns, p, st.arrays, q, k, h);
    LastOperandFound(cfg, st, p, q, k);
    BestDisplaced(cfg.caps, i.mems[k].size, PostForm(add), add.val, i.mems[k].addr.off, h);
    PermitsBest(cfg, add, i.mems[k].addr.off, i.mems[k], PostForm(add), add.res, ns[q].uid, ns[p].uid);
  }

  lemma LastOperandFound(cfg: Config, st: Point, p: nat, q: nat, k: nat)
    requires AtExact(cfg, st.nodes, p, st.arrays) && PostApproved(cfg, st.nodes, p, st.arrays, q, k)
    requires forall i: nat, l: nat, g :: l > k ==> !AccessChance(cfg, st.nodes, p, i, l, g)
    ensures FindInc(cfg, st, p) == Some((q, k))
  {
    hide AccessChance, Permits, Occurrences;
    var found := FindInc(cfg, st, p);
    var h := AccessFound(cfg, st.nodes, p, st.arrays, found.value.0, found.value.1);
    FirstFromTheEnd(cfg, st, p, q, k, |st.nodes[p].insn.mems|);
  }

  lemma {:induction false} FirstFromTheEnd(cfg: Config, st: Point, p: nat, q: nat, k: nat, n: nat)
    requires p < |st.nodes| && PostApproved(cfg, st.nodes, p, st.arrays, q, k) && k < n <= |st.nodes[p].insn.mems|
    ensures var r := FindIncFrom(cfg, st.nodes, p, st.arrays, n);
            r.Some? && r.value.1 >= k && (r.value.1 == k ==> r.value.0 == q)
  {
    hide Permits, Occurrences;
    if k == n - 1 {
    } else {
      FirstFromTheEnd(cfg, st, p, q, k, n - 1);
    }
  }

  // ----- Scans and the whole pass -----

  /** Down to `q` a scan from cleared arrays merges nothing if and only if there is no opportunity at or behind `q`. */
  lemma {:induction false} ScanMergesIff(cfg: Config, st: Point, p: nat, q: nat)
    requires cfg.Valid() && WellFormed(st.nodes) && AllPlain(st.nodes) && q <= p <= |st.nodes|
    requires AllExact(st.nodes[p..], st.arrays, cfg.frame)
    ensures ScanTo(cfg, st, p, q).1 == 0 <==> forall x :: q <= x < p ==> !Chance(cfg, st.nodes, x)
    decreases p
  {
    hide Visit, EnterOnly, AllExact, WellFormed, Chance;
    if p == q {
    } else {
      MergesIffChance(cfg, st, p - 1);
      VisitWithoutMerge(cfg, st, p - 1);
      if !Visit(cfg, st, p - 1).1 {
        EnterOnlyExact(cfg, st, p - 1);
        ScanMergesIff(cfg, EnterOnly(cfg, st, p - 1), p - 1, q);
      }
    }
  }

  /** The opportunities of a block of instructions, identified by their places. */
  ghost predicate ChanceIn(cfg: Config, insns: seq<Insn>, p: nat) {
    Chance(cfg, Numbered(insns, 0), p)
  }

  /** A scan of a block merges something if and only if the block has an opportunity. */
  lemma ScannedIff(cfg: Config, insns: seq<Insn>)
    requires cfg.Valid()
    ensures Scanned(cfg, insns).1 == 0 <==> forall p :: 0 <= p < |insns| ==> !ChanceIn(cfg, insns, p)
  {
    hide ScanTo, ScanFrom, Chance, WellFormed, AllPlain, AllExact;
    NothingBehind(cfg, insns);
    forall p: nat ensures ChanceIn(cfg, insns, p) == Chance(cfg, Start(insns).nodes, p) {
    }
    ScanSplits(cfg, Start(insns), |insns|, 0);
    NothingLeft(cfg, ScanTo(cfg, Start(insns), |insns|, 0).0);
    ScanMergesIff(cfg, Start(insns), |insns|, 0);
  }

  lemma NothingLeft(cfg: Config, st: Point)
    ensures ScanFrom(cfg, st, 0) == (st, 0)
  {
  }

  /** The pass leaves no opportunity, and leaves alone exactly the blocks that have none. */
  lemma {:induction false} PassTakesAll(cfg: Config, insns: seq<Insn>)
    requires cfg.Valid()
    ensures forall p :: 0 <= p < |MergeInBlock(cfg, insns)| ==> !ChanceIn(cfg, MergeInBlock(cfg, insns), p)
    ensures MergeInBlock(cfg, insns) == insns <==> forall p :: 0 <= p < |insns| ==> !ChanceIn(cfg, insns, p)
    decreases AddCount(Numbered(insns, 0))
  {
    hide Scanned, ChanceIn, AddCount, Flatten;
    ScannedIff(cfg, insns);
    if Scanned(cfg, insns).1 == 0 {
    } else {
      ScanCounts(cfg, insns);
      PassTakesAll(cfg, Flatten(Scanned(cfg, insns).0.nodes));
      MergeAgain(cfg, insns);
    }
  }
}
