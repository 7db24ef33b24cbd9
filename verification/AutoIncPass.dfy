/** The reverse scan of a block: parse, merge, keep the arrays up to date, and start over after a success.  The pass is
    given as a function of the block, and as the object that rewrites the block in place. */
module AutoIncPass {
  import opened Options
  import opened Rtl
  import opened AutoIncMerge
  import opened AutoIncArrays
  import opened AutoIncApprove
  import opened AutoIncPatch
  import opened AutoIncSearch

  // ----- The scan as a function of the block -----

  /** The block, the arrays and the next free identifier at a point of the scan. */
  datatype Point = Point(nodes: seq<Node>, arrays: Arrays, limit: nat)

  function EnterDefs(a: Arrays, defs: seq<Reg>, uid: nat): Arrays
    decreases |defs|
  {
    if defs == [] then a
    else EnterDefs(Arrays(a.use - {defs[0]}, a.inc - {defs[0]}, a.def[defs[0] := uid]), defs[1..], uid)
  }

  function EnterUses(a: Arrays, uses: seq<Reg>, uid: nat, isAdd: bool): Arrays
    decreases |uses|
  {
    if uses == [] then a
    else
      var inc := if isAdd then a.inc[uses[0] := uid] else a.inc - {uses[0]};
      EnterUses(Arrays(a.use[uses[0] := uid], inc, a.def), uses[1..], uid, isAdd)
  }

  /** The arrays after an instruction has been entered: its definitions, then its uses. */
  function Enter(a: Arrays, i: Insn, uid: nat, isAdd: bool): Arrays {
    EnterUses(EnterDefs(a, DefList(i), uid), UseList(i), uid, isAdd)
  }

  lemma {:induction false} EnterDefsEntry(a: Arrays, defs: seq<Reg>, uid: nat, r: Reg)
    ensures var b := EnterDefs(a, defs, uid);
            if r in defs then Entry(b.def, r) == Some(uid) && Entry(b.use, r) == None && Entry(b.inc, r) == None
            else Entry(b.def, r) == Entry(a.def, r) && Entry(b.use, r) == Entry(a.use, r) && Entry(b.inc, r) == Entry(a.inc, r)
    decreases |defs|
  {
    if defs == [] {
    } else {
      var a' := Arrays(a.use - {defs[0]}, a.inc - {defs[0]}, a.def[defs[0] := uid]);
      EnterDefsEntry(a', defs[1..], uid, r);
    }
  }

  lemma {:induction false} EnterUsesEntry(a: Arrays, uses: seq<Reg>, uid: nat, isAdd: bool, r: Reg)
    ensures var b := EnterUses(a, uses, uid, isAdd);
            && b.def == a.def
            && (if r in uses then Entry(b.use, r) == Some(uid) && Entry(b.inc, r) == (if isAdd then Some(uid) else None)
                else Entry(b.use, r) == Entry(a.use, r) && Entry(b.inc, r) == Entry(a.inc, r))
    decreases |uses|
  {
    if uses == [] {
    } else {
      var inc := if isAdd then a.inc[uses[0] := uid] else a.inc - {uses[0]};
      EnterUsesEntry(Arrays(a.use[uses[0] := uid], inc, a.def), uses[1..], uid, isAdd, r);
    }
  }

  lemma EnterEntered(a: Arrays, i: Insn, uid: nat, isAdd: bool)
    ensures Entered(a, Enter(a, i, uid, isAdd), i, uid, isAdd)
  {
    forall r
      ensures var b := Enter(a, i, uid, isAdd);
              && Entry(b.def, r) == (if i.Defs(r) then Some(uid) else Entry(a.def, r))
              && Entry(b.use, r) == (if i.Uses(r) then Some(uid) else if i.Defs(r) then None else Entry(a.use, r))
              && Entry(b.inc, r) == (if i.Uses(r) && isAdd then Some(uid) else if i.Refs(r) then None else Entry(a.inc, r))
    {
      ListsAgree(i, r);
      EnterDefsEntry(a, DefList(i), uid, r);
      EnterUsesEntry(EnterDefs(a, DefList(i), uid), UseList(i), uid, isAdd, r);
    }
  }

  function EnterOnly(cfg: Config, st: Point, p: nat): Point
    requires p < |st.nodes|
  {
    var n := st.nodes[p];
    st.(arrays := Enter(st.arrays, n.insn, n.uid, Parses(n.insn, cfg.frame)))
  }

  function CommitResult(cfg: Config, st: Point, p: nat, j: nat, k: nat): Point
    requires PreApproved(cfg, st.nodes, p, st.arrays, j, k)
  {
    var add := st.nodes[p].insn;
    Point(PreMerged(cfg, st.nodes, p, j, k, st.limit), PrePatch(add, st.arrays, st.nodes[j].uid, st.limit),
          if add.res == add.reg0 then st.limit else st.limit + 1)
  }

  function CommitSource(cfg: Config, st: Point, p: nat, j: nat, k: nat): Point
    requires SourceApproved(cfg, st.nodes, p, st.arrays, j, k)
  {
    Point(PreMerged(cfg, st.nodes, p, j, k, st.limit), PatchPreAdd(st.arrays, st.nodes[p].insn, st.limit), st.limit + 1)
  }

  function CommitPost(cfg: Config, st: Point, p: nat, q: nat, k: nat): Point
    requires PostApproved(cfg, st.nodes, p, st.arrays, q, k)
  {
    var merged := PostMerged(cfg, st.nodes, p, q, k);
    Point(merged, Enter(PatchPost(st.arrays, st.nodes[q].insn, st.nodes[q].uid, st.nodes[p].uid),
                        merged[p].insn, st.nodes[p].uid, false), st.limit)
  }

  function FindInc(cfg: Config, st: Point, p: nat): (r: Found)
    requires p < |st.nodes|
    ensures r.Some? ==> PostApproved(cfg, st.nodes, p, st.arrays, r.value.0, r.value.1)
  {
    if st.nodes[p].insn.Op? then FindIncFrom(cfg, st.nodes, p, st.arrays, |st.nodes[p].insn.mems|) else None
  }

  /** One step of the scan and whether it merged something. */
  function Visit(cfg: Config, st: Point, p: nat): (r: (Point, bool))
    requires p < |st.nodes|
    ensures p <= |r.0.nodes|
  {
    if IsAddAt(cfg, st.nodes, p) then
      var byResult := FindResultUse(cfg, st.nodes, p, st.arrays);
      if byResult.Some? then (CommitResult(cfg, st, p, byResult.value.0, byResult.value.1), true)
      else
        var bySource := FindSourceUse(cfg, st.nodes, p, st.arrays);
        if bySource.Some? then (CommitSource(cfg, st, p, bySource.value.0, bySource.value.1), true)
        else (EnterOnly(cfg, st, p), false)
    else
      var found := FindInc(cfg, st, p);
      if found.Some? then (CommitPost(cfg, st, p, found.value.0, found.value.1), true)
      else (EnterOnly(cfg, st, p), false)
  }

  /** The step is not a merge through the register added to that leaves a stale addition entry or overtakes a leading copy
      of the result. */
  predicate CleanStep(cfg: Config, st: Point, p: nat)
    requires p < |st.nodes|
  {
    IsAddAt(cfg, st.nodes, p) && FindResultUse(cfg, st.nodes, p, st.arrays) == None ==>
      var bySource := FindSourceUse(cfg, st.nodes, p, st.arrays);
      bySource.Some? ==> CleanAt(st.nodes, st.arrays, p, bySource.value.0)
  }

  /** The scan of the first `p` instructions, last one first, and the number of merges. */
  function ScanFrom(cfg: Config, st: Point, p: nat): (Point, nat)
    requires p <= |st.nodes|
    decreases p
  {
    if p == 0 then (st, 0)
    else
      var (st', ok) := Visit(cfg, st, p - 1);
      var (end, successes) := ScanFrom(cfg, st', p - 1);
      (end, successes + if ok then 1 else 0)
  }

  /** The part of the scan from `p` down to `q`. */
  function ScanTo(cfg: Config, st: Point, p: nat, q: nat): (Point, nat)
    requires q <= p <= |st.nodes|
    decreases p
  {
    if p == q then (st, 0)
    else
      var (st', ok) := Visit(cfg, st, p - 1);
      var (end, successes) := ScanTo(cfg, st', p - 1, q);
      (end, successes + if ok then 1 else 0)
  }

  predicate CleanScan(cfg: Config, st: Point, p: nat)
    requires p <= |st.nodes|
    decreases p
  {
    p > 0 ==> CleanStep(cfg, st, p - 1) && CleanScan(cfg, Visit(cfg, st, p - 1).0, p - 1)
  }

  function Start(insns: seq<Insn>): Point {
    Point(Numbered(insns, 0), NO_ARRAYS, |insns|)
  }

  function Scanned(cfg: Config, insns: seq<Insn>): (Point, nat) {
    ScanFrom(cfg, Start(insns), |insns|)
  }

  /** The whole pass over one block: scan, and start over from cleared arrays while something merged. */
  function MergeInBlock(cfg: Config, insns: seq<Insn>): seq<Insn>
    decreases AddCount(Numbered(insns, 0))
  {
    var (end, successes) := Scanned(cfg, insns);
    if successes == 0 then insns
    else
      ScanCounts(cfg, insns);
      MergeInBlock(cfg, Flatten(end.nodes))
  }

  /** In every scan of the pass that merges more than once, every merge through the register added to is clean. */
  predicate CleanRun(cfg: Config, insns: seq<Insn>)
    decreases AddCount(Numbered(insns, 0))
  {
    var (end, successes) := Scanned(cfg, insns);
    && (successes > 1 ==> CleanScan(cfg, Start(insns), |insns|))
    && (successes > 0 ==> (ScanCounts(cfg, insns); CleanRun(cfg, Flatten(end.nodes))))
  }

  // ----- Termination: every merge costs an addition -----

  lemma VisitCounts(cfg: Config, st: Point, p: nat)
    requires p < |st.nodes| && Distinct(st.nodes, st.limit)
    ensures var (st', ok) := Visit(cfg, st, p);
            if ok then OneAddLess(st.nodes, st.limit, st'.nodes, st'.limit, p)
            else st'.nodes == st.nodes && st'.limit == st.limit
  {
    if IsAddAt(cfg, st.nodes, p) {
      var byResult, bySource := FindResultUse(cfg, st.nodes, p, st.arrays), FindSourceUse(cfg, st.nodes, p, st.arrays);
      if byResult.Some? {
        PreOneAddLess(cfg, st.nodes, st.limit, p, byResult.value.0, byResult.value.1);
      } else if bySource.Some? {
        PreOneAddLess(cfg, st.nodes, st.limit, p, bySource.value.0, bySource.value.1);
      }
    } else {
      var found := FindInc(cfg, st, p);
      if found.Some? {
        PostOneAddLess(cfg, st.nodes, st.limit, p, found.value.0, found.value.1);
      }
    }
  }

  lemma {:induction false} ScanFromCounts(cfg: Config, st: Point, p: nat)
    requires p <= |st.nodes| && Distinct(st.nodes, st.limit)
    ensures var (end, successes) := ScanFrom(cfg, st, p);
            AddCount(end.nodes) + successes == AddCount(st.nodes) && Distinct(end.nodes, end.limit)
    decreases p
  {
    hide Visit, AddCount, OneAddLess;
    if p == 0 {
    } else {
      VisitCounts(cfg, st, p - 1);
      ScanFromCounts(cfg, Visit(cfg, st, p - 1).0, p - 1);
    }
  }

  /** The instructions left by a scan contain exactly one addition less per merge. */
  lemma ScanCounts(cfg: Config, insns: seq<Insn>)
    ensures var (end, successes) := Scanned(cfg, insns);
            AddCount(Numbered(Flatten(end.nodes), 0)) + successes == AddCount(Numbered(insns, 0))
  {
    ScanFromCounts(cfg, Start(insns), |insns|);
    AddCountFlatten(Scanned(cfg, insns).0.nodes, 0);
  }

  lemma MergeAgain(cfg: Config, insns: seq<Insn>)
    requires Scanned(cfg, insns).1 > 0
    ensures MergeInBlock(cfg, insns) == MergeInBlock(cfg, Flatten(Scanned(cfg, insns).0.nodes))
  {
    hide Scanned, Flatten;
  }

  // ----- Exactness until the first merge -----

  lemma EnterOnlyExact(cfg: Config, st: Point, p: nat)
    requires p < |st.nodes| && AllExact(st.nodes[p + 1..], st.arrays, cfg.frame) && st.nodes[p].lead == NoLead
    ensures AllExact(st.nodes[p..], EnterOnly(cfg, st, p).arrays, cfg.frame)
  {
    var n := st.nodes[p];
    EnterEntered(st.arrays, n.insn, n.uid, Parses(n.insn, cfg.frame));
    assert st.nodes[p..] == [n] + st.nodes[p + 1..];
    EnterExact(n, st.nodes[p + 1..], st.arrays, EnterOnly(cfg, st, p).arrays, cfg.frame);
  }

  lemma VisitWithoutMerge(cfg: Config, st: Point, p: nat)
    requires p < |st.nodes|
    ensures !Visit(cfg, st, p).1 ==> Visit(cfg, st, p).0 == EnterOnly(cfg, st, p)
    ensures EnterOnly(cfg, st, p).nodes == st.nodes
  {
  }

  /** As long as nothing has been merged, whatever is merged later, the block is as it was and each array is exact for the
      instructions behind the scan point. */
  lemma {:induction false} ScanExact(cfg: Config, st: Point, p: nat, q: nat)
    requires q <= p <= |st.nodes| && AllExact(st.nodes[p..], st.arrays, cfg.frame) && AllPlain(st.nodes)
    requires ScanTo(cfg, st, p, q).1 == 0
    ensures ScanTo(cfg, st, p, q).0.nodes == st.nodes
    ensures AllExact(st.nodes[q..], ScanTo(cfg, st, p, q).0.arrays, cfg.frame)
    decreases p
  {
    hide Visit, EnterOnly, AllExact;
    if p == q {
    } else {
      VisitWithoutMerge(cfg, st, p - 1);
      EnterOnlyExact(cfg, st, p - 1);
      ScanExact(cfg, EnterOnly(cfg, st, p - 1), p - 1, q);
    }
  }

  /** A scan is its part down to `q` and then the rest. */
  lemma {:induction false} ScanSplits(cfg: Config, st: Point, p: nat, q: nat)
    requires q <= p <= |st.nodes|
    ensures var (mid, merges) := ScanTo(cfg, st, p, q);
            && q <= |mid.nodes|
            && ScanFrom(cfg, st, p) == (ScanFrom(cfg, mid, q).0, merges + ScanFrom(cfg, mid, q).1)
    decreases p
  {
    hide Visit;
    if p == q {
    } else {
      ScanSplits(cfg, Visit(cfg, st, p - 1).0, p - 1, q);
    }
  }

  predicate AllPlain(ns: seq<Node>) {
    forall i :: 0 <= i < |ns| ==> ns[i].lead == NoLead
  }

  // ----- Meaning -----

  /** A clean step preserves the meaning of the block and the soundness of the arrays. */
  lemma VisitSound(cfg: Config, st: Point, p: nat)
    requires p < |st.nodes| && Distinct(st.nodes, st.limit) && Ready(cfg, st.nodes, p, st.arrays) && CleanStep(cfg, st, p)
    ensures StaysSound(st.nodes, Visit(cfg, st, p).0.nodes, Visit(cfg, st, p).0.arrays, p)
  {
    if IsAddAt(cfg, st.nodes, p) {
      var byResult, bySource := FindResultUse(cfg, st.nodes, p, st.arrays), FindSourceUse(cfg, st.nodes, p, st.arrays);
      if byResult.Some? {
        ResultMergeSound(cfg, st.nodes, st.limit, p, st.arrays, byResult.value.0, byResult.value.1);
      } else if bySource.Some? {
        SourceMergeSound(cfg, st.nodes, st.limit, p, st.arrays, bySource.value.0, bySource.value.1);
      } else {
        VisitEnterSound(cfg, st, p);
      }
    } else {
      var found := FindInc(cfg, st, p);
      if found.Some? {
        VisitPostSound(cfg, st, p, found.value.0, found.value.1);
      } else {
        VisitEnterSound(cfg, st, p);
      }
    }
  }

  lemma VisitEnterSound(cfg: Config, st: Point, p: nat)
    requires p < |st.nodes| && Ready(cfg, st.nodes, p, st.arrays)
    ensures StaysSound(st.nodes, st.nodes, EnterOnly(cfg, st, p).arrays, p)
  {
    var n := st.nodes[p];
    EnterEntered(st.arrays, n.insn, n.uid, Parses(n.insn, cfg.frame));
    EnterStaysSound(cfg, st.nodes, p, st.arrays, EnterOnly(cfg, st, p).arrays);
  }

  lemma VisitPostSound(cfg: Config, st: Point, p: nat, q: nat, k: nat)
    requires p < |st.nodes| && Ready(cfg, st.nodes, p, st.arrays) && PostApproved(cfg, st.nodes, p, st.arrays, q, k)
    ensures StaysSound(st.nodes, CommitPost(cfg, st, p, q, k).nodes, CommitPost(cfg, st, p, q, k).arrays, p)
  {
    var merged := PostMerged(cfg, st.nodes, p, q, k);
    var patched := PatchPost(st.arrays, st.nodes[q].insn, st.nodes[q].uid, st.nodes[p].uid);
    EnterEntered(patched, merged[p].insn, st.nodes[p].uid, false);
    PostMergeSound(cfg, st.nodes, p, st.arrays, q, k, Enter(patched, merged[p].insn, st.nodes[p].uid, false));
  }

  /** The step moves an addition past a copy of its result. */
  predicate OvertakesAt(cfg: Config, st: Point, p: nat)
    requires p < |st.nodes|
  {
    && IsAddAt(cfg, st.nodes, p) && FindResultUse(cfg, st.nodes, p, st.arrays) == None
    && var bySource := FindSourceUse(cfg, st.nodes, p, st.arrays);
       bySource.Some? && Overtakes(st.nodes, p, bySource.value.0)
  }

  /** On sound arrays one step of the scan preserves the meaning of the block if and only if it does not move an addition past
      a copy of its result. */
  lemma VisitPreservesIff(cfg: Config, st: Point, p: nat)
    requires Ready(cfg, st.nodes, p, st.arrays)
    ensures SameMeaning(st.nodes, Visit(cfg, st, p).0.nodes) <==> !OvertakesAt(cfg, st, p)
  {
    hide SameMeaning;
    if IsAddAt(cfg, st.nodes, p) {
      var byResult, bySource := FindResultUse(cfg, st.nodes, p, st.arrays), FindSourceUse(cfg, st.nodes, p, st.arrays);
      if byResult.Some? {
        PreApprovedPreserves(cfg, st.nodes, p, st.arrays, byResult.value.0, byResult.value.1, st.limit);
      } else if bySource.Some? {
        SourceApprovedPreserves(cfg, st.nodes, p, st.arrays, bySource.value.0, bySource.value.1, st.limit);
      } else {
        SameMeaningSelf(st.nodes);
      }
    } else {
      var found := FindInc(cfg, st, p);
      if found.Some? {
        PostApprovedPreserves(cfg, st.nodes, p, st.arrays, found.value.0, found.value.1);
      } else {
        SameMeaningSelf(st.nodes);
      }
    }
  }

  lemma SameMeaningTrans(a: seq<Node>, b: seq<Node>, c: seq<Node>)
    requires SameMeaning(a, b) && SameMeaning(b, c)
    ensures SameMeaning(a, c)
  {
  }

  lemma SameMeaningSelf(a: seq<Node>)
    ensures SameMeaning(a, a)
  {
  }

  /** A clean scan preserves the meaning of the block. */
  lemma {:induction false} ScanSound(cfg: Config, st: Point, p: nat)
    requires p <= |st.nodes| && Distinct(st.nodes, st.limit) && WellFormed(st.nodes) && cfg.Valid()
    requires AllPlain(st.nodes[..p]) && AllSound(st.nodes[p..], st.arrays)
    requires CleanScan(cfg, st, p)
    ensures SameMeaning(st.nodes, ScanFrom(cfg, st, p).0.nodes)
    decreases p
  {
    hide Visit, CleanStep, AllSound, SameMeaning, Distinct;
    if p > 0 {
      assert st.nodes[..p][p - 1] == st.nodes[p - 1];
      VisitSound(cfg, st, p - 1);
      VisitCounts(cfg, st, p - 1);
      var st' := Visit(cfg, st, p - 1).0;
      assert AllPlain(st'.nodes[..p - 1]) by {
        forall i | 0 <= i < p - 1 ensures st'.nodes[i].lead == NoLead {
          assert st'.nodes[..p - 1][i] == st.nodes[..p - 1][i] == st.nodes[..p][i];
        }
      }
      ScanSound(cfg, st', p - 1);
      SameMeaningTrans(st.nodes, st'.nodes, ScanFrom(cfg, st', p - 1).0.nodes);
    } else {
      SameMeaningSelf(st.nodes);
    }
  }

  // ----- One merge on exact arrays -----

  lemma ExactReady(cfg: Config, ns: seq<Node>, p: nat, a: Arrays)
    requires cfg.Valid() && WellFormed(ns) && AllPlain(ns) && p < |ns| && AllExact(ns[p + 1..], a, cfg.frame)
    ensures Ready(cfg, ns, p, a)
  {
    TailFormed(ns, p);
    var rest := ns[p + 1..];
    forall r
      ensures SoundFor(rest, a, r)
    {
      assert ExactFor(rest, a, r, cfg.frame);
      ExactIsSound(rest, a, cfg.frame, r);
    }
  }

  /** With exact arrays and no merge committed yet, an approved merge of any of the four forms, including the one through
      the register added to, preserves the meaning of the block. */
  lemma MergeOnExactArrays(cfg: Config, ns: seq<Node>, p: nat, a: Arrays, mov: nat)
    requires cfg.Valid() && WellFormed(ns) && AllPlain(ns) && p < |ns| && AllExact(ns[p + 1..], a, cfg.frame)
    ensures forall j: nat, k: nat :: PreApproved(cfg, ns, p, a, j, k) ==> SameMeaning(ns, PreMerged(cfg, ns, p, j, k, mov))
    ensures forall j: nat, k: nat :: SourceApproved(cfg, ns, p, a, j, k) ==> SameMeaning(ns, PreMerged(cfg, ns, p, j, k, mov))
    ensures forall q: nat, k: nat :: PostApproved(cfg, ns, p, a, q, k) ==> SameMeaning(ns, PostMerged(cfg, ns, p, q, k))
  {
    ExactReady(cfg, ns, p, a);
    hide SameMeaning, AllExact, AllSound;
    forall j: nat, k: nat | PreApproved(cfg, ns, p, a, j, k)
      ensures SameMeaning(ns, PreMerged(cfg, ns, p, j, k, mov))
    {
      PreApprovedPreserves(cfg, ns, p, a, j, k, mov);
    }
    forall j: nat, k: nat | SourceApproved(cfg, ns, p, a, j, k)
      ensures SameMeaning(ns, PreMerged(cfg, ns, p, j, k, mov))
    {
      SourceApprovedPreserves(cfg, ns, p, a, j, k, mov);
      assert !Overtakes(ns, p, j);
    }
    forall q: nat, k: nat | PostApproved(cfg, ns, p, a, q, k)
      ensures SameMeaning(ns, PostMerged(cfg, ns, p, q, k))
    {
      PostApprovedPreserves(cfg, ns, p, a, q, k);
    }
  }

  /** A step that merges on exact arrays preserves the meaning of the block. */
  lemma VisitOnExact(cfg: Config, st: Point, p: nat)
    requires cfg.Valid() && WellFormed(st.nodes) && AllPlain(st.nodes) && p < |st.nodes|
    requires AllExact(st.nodes[p + 1..], st.arrays, cfg.frame)
    ensures SameMeaning(st.nodes, Visit(cfg, st, p).0.nodes)
  {
    hide Visit, SameMeaning;
    ExactReady(cfg, st.nodes, p, st.arrays);
    VisitPreservesIff(cfg, st, p);
  }

  /** The part of a scan up to and including its first merge preserves the meaning of the block. */
  lemma {:induction false} FirstMergeSound(cfg: Config, st: Point, p: nat, q: nat)
    requires cfg.Valid() && WellFormed(st.nodes) && AllPlain(st.nodes) && q <= p <= |st.nodes|
    requires AllExact(st.nodes[p..], st.arrays, cfg.frame) && ScanTo(cfg, st, p, q).1 <= 1
    ensures SameMeaning(st.nodes, ScanTo(cfg, st, p, q).0.nodes)
    decreases p
  {
    hide Visit, EnterOnly, AllExact, SameMeaning, WellFormed;
    if p == q {
      SameMeaningSelf(st.nodes);
    } else {
      var (st', ok) := Visit(cfg, st, p - 1);
      if ok {
        VisitOnExact(cfg, st, p - 1);
        NoMergeNoChangeTo(cfg, st', p - 1, q);
      } else {
        VisitWithoutMerge(cfg, st, p - 1);
        EnterOnlyExact(cfg, st, p - 1);
        FirstMergeSound(cfg, st', p - 1, q);
      }
    }
  }

  lemma {:induction false} NoMergeNoChangeTo(cfg: Config, st: Point, p: nat, q: nat)
    requires q <= p <= |st.nodes| && ScanTo(cfg, st, p, q).1 == 0
    ensures ScanTo(cfg, st, p, q).0.nodes == st.nodes
    decreases p
  {
    hide Visit, EnterOnly;
    if p == q {
    } else {
      VisitWithoutMerge(cfg, st, p - 1);
      NoMergeNoChangeTo(cfg, Visit(cfg, st, p - 1).0, p - 1, q);
    }
  }

  /** From cleared arrays, on every block and every target: up to and including its first merge a scan preserves the meaning of
      the block, whatever form the merge has. */
  lemma FirstMergePreserves(cfg: Config, insns: seq<Insn>, q: nat)
    requires cfg.Valid() && q <= |insns| && ScanTo(cfg, Start(insns), |insns|, q).1 <= 1
    ensures SameProgram(insns, Flatten(ScanTo(cfg, Start(insns), |insns|, q).0.nodes))
  {
    hide ScanTo, SameMeaning, SameProgram;
    var st := Start(insns);
    NothingBehind(cfg, insns);
    FirstMergeSound(cfg, st, |insns|, q);
    SameMeaningFlat(st.nodes, ScanTo(cfg, st, |insns|, q).0.nodes);
    FlattenNumbered(insns, 0);
  }

  /** Cleared arrays are exact for what is behind the last instruction. */
  lemma NothingBehind(cfg: Config, insns: seq<Insn>)
    ensures var st := Start(insns);
            && |st.nodes| == |insns| && WellFormed(st.nodes) && AllPlain(st.nodes)
            && AllExact(st.nodes[|insns|..], st.arrays, cfg.frame)
  {
    assert Start(insns).nodes[|insns|..] == [];
  }

  lemma CleanScanPreserves(cfg: Config, insns: seq<Insn>)
    requires cfg.Valid() && CleanScan(cfg, Start(insns), |insns|)
    ensures SameProgram(insns, Flatten(ScanFrom(cfg, Start(insns), |insns|).0.nodes))
  {
    hide ScanFrom, CleanScan, SameMeaning, SameProgram;
    var st := Start(insns);
    assert st.nodes[|insns|..] == [];
    ScanSound(cfg, st, |insns|);
    SameMeaningFlat(st.nodes, ScanFrom(cfg, st, |insns|).0.nodes);
    FlattenNumbered(insns, 0);
  }

  lemma ScannedSound(cfg: Config, insns: seq<Insn>)
    requires cfg.Valid() && (Scanned(cfg, insns).1 > 1 ==> CleanScan(cfg, Start(insns), |insns|))
    ensures SameProgram(insns, Flatten(Scanned(cfg, insns).0.nodes))
  {
    hide ScanTo, CleanScan, SameProgram, Flatten, Start;
    if Scanned(cfg, insns).1 <= 1 {
      NothingBehind(cfg, insns);
      ScanSplits(cfg, Start(insns), |insns|, 0);
      FirstMergePreserves(cfg, insns, 0);
    } else {
      CleanScanPreserves(cfg, insns);
    }
  }

  // ----- The whole pass -----

  lemma SameProgramTrans(a: seq<Insn>, b: seq<Insn>, c: seq<Insn>)
    requires SameProgram(a, b) && SameProgram(b, c)
    ensures SameProgram(a, c)
  {
  }

  /** The pass preserves the meaning of every block on which, in every scan that merges more than once, every merge through the
      register added to is clean. */
  lemma {:induction false} MergePreservesMeaning(cfg: Config, insns: seq<Insn>)
    requires cfg.Valid() && CleanRun(cfg, insns)
    ensures SameProgram(insns, MergeInBlock(cfg, insns))
    decreases AddCount(Numbered(insns, 0))
  {
    if Scanned(cfg, insns).1 == 0 {
    } else {
      var next := Flatten(Scanned(cfg, insns).0.nodes);
      ScannedSound(cfg, insns);
      ScanCounts(cfg, insns);
      MergePreservesMeaning(cfg, next);
      SameProgramTrans(insns, next, MergeInBlock(cfg, next));
    }
  }

  // ----- Targets without post-modify addressing -----

  lemma {:induction false} NoPostModifyScan(cfg: Config, st: Point, p: nat)
    requires p <= |st.nodes| && cfg.Valid() && !HasPostModify(cfg.caps)
    ensures CleanScan(cfg, st, p)
    decreases p
  {
    if p == 0 {
    } else {
      if IsAddAt(cfg, st.nodes, p - 1) {
        var bySource := FindSourceUse(cfg, st.nodes, p - 1, st.arrays);
        if bySource.Some? {
          SourceNeedsPostModify(cfg, st.nodes, p - 1, st.arrays, bySource.value.0, bySource.value.1);
        }
      }
      NoPostModifyScan(cfg, Visit(cfg, st, p - 1).0, p - 1);
    }
  }

  /** On a target without post-modify addressing the pass preserves the meaning of every block. */
  lemma {:induction false} NoPostModifyPreservesMeaning(cfg: Config, insns: seq<Insn>)
    requires cfg.Valid() && !HasPostModify(cfg.caps)
    ensures CleanRun(cfg, insns) && SameProgram(insns, MergeInBlock(cfg, insns))
    decreases AddCount(Numbered(insns, 0))
  {
    NoPostModifyScan(cfg, Start(insns), |insns|);
    var (end, successes) := Scanned(cfg, insns);
    if successes == 0 {
    } else {
      ScanCounts(cfg, insns);
      NoPostModifyPreservesMeaning(cfg, Flatten(end.nodes));
    }
    MergePreservesMeaning(cfg, insns);
  }

  // ----- The pass rewriting a block in place -----

  class Pass {
    const cfg: Config
    var nodes: seq<Node>
    var arrays: Arrays
    var limit: nat

    constructor (cfg: Config, insns: seq<Insn>)
      ensures this.cfg == cfg && At() == Start(insns) && Flatten(nodes) == insns
    {
      this.cfg := cfg;
      nodes, arrays, limit := Numbered(insns, 0), NO_ARRAYS, |insns|;
      FlattenNumbered(insns, 0);
    }

    ghost function At(): Point
      reads this
    {
      Point(nodes, arrays, limit)
    }

    /** The loop over the definitions of an instruction. */
    method EnterDefsOf(i: Insn, uid: nat)
      modifies this`arrays
      ensures arrays == EnterDefs(old(arrays), DefList(i), uid)
    {
      var defs := DefList(i);
      assert defs[0..] == defs;
      for n := 0 to |defs|
        invariant EnterDefs(arrays, defs[n..], uid) == EnterDefs(old(arrays), defs, uid)
      {
        assert defs[n..][1..] == defs[n + 1..];
        arrays := Arrays(arrays.use - {defs[n]}, arrays.inc - {defs[n]}, arrays.def[defs[n] := uid]);
      }
    }

    /** The loop over the uses of an instruction. */
    method EnterUsesOf(i: Insn, uid: nat, isAdd: bool)
      modifies this`arrays
      ensures arrays == EnterUses(old(arrays), UseList(i), uid, isAdd)
    {
      var uses := UseList(i);
      assert uses[0..] == uses;
      for n := 0 to |uses|
        invariant EnterUses(arrays, uses[n..], uid, isAdd) == EnterUses(old(arrays), uses, uid, isAdd)
      {
        assert uses[n..][1..] == uses[n + 1..];
        arrays := Arrays(arrays.use[uses[n] := uid],
                         if isAdd then arrays.inc[uses[n] := uid] else arrays.inc - {uses[n]}, arrays.def);
      }
    }

    method EnterInsn(i: Insn, uid: nat, isAdd: bool)
      modifies this`arrays
      ensures arrays == Enter(old(arrays), i, uid, isAdd)
    {
      EnterDefsOf(i, uid);
      EnterUsesOf(i, uid, isAdd);
    }

    /** The addition at `p`: merge it with the next use of its result or of the register it adds to, or enter it. */
    method VisitAdd(p: nat) returns (ok: bool)
      requires IsAddAt(cfg, nodes, p)
      modifies this
      ensures (At(), ok) == old(Visit(cfg, At(), p))
    {
      var found := FindResultUse(cfg, nodes, p, arrays);
      var add := nodes[p].insn;
      if found.Some? {
        var (j, k) := found.value;
        nodes, arrays, limit := PreMerged(cfg, nodes, p, j, k, limit), PrePatch(add, arrays, nodes[j].uid, limit),
                                if add.res == add.reg0 then limit else limit + 1;
        return true;
      }
      found := FindSourceUse(cfg, nodes, p, arrays);
      if found.Some? {
        var (j, k) := found.value;
        nodes, arrays, limit := PreMerged(cfg, nodes, p, j, k, limit), PatchPreAdd(arrays, add, limit), limit + 1;
        return true;
      }
      EnterInsn(add, nodes[p].uid, true);
      return false;
    }

    /** Any other instruction: merge one of its memory operands with a later addition, then enter it. */
    method VisitOther(p: nat) returns (ok: bool)
      requires p < |nodes| && !IsAddAt(cfg, nodes, p)
      modifies this
      ensures (At(), ok) == old(Visit(cfg, At(), p))
    {
      var found := if nodes[p].insn.Op? then FindIncFrom(cfg, nodes, p, arrays, |nodes[p].insn.mems|) else None;
      ok := found.Some?;
      var uid := nodes[p].uid;
      if ok {
        var (q, k) := found.value;
        arrays := PatchPost(arrays, nodes[q].insn, nodes[q].uid, uid);
        nodes := PostMerged(cfg, nodes, p, q, k);
      }
      EnterInsn(nodes[p].insn, uid, false);
    }

    method ScanOnce() returns (successes: nat)
      modifies this
      ensures (At(), successes) == old(ScanFrom(cfg, At(), |nodes|))
    {
      hide Visit;
      successes := 0;
      var p: nat := |nodes|;
      while p > 0
        invariant p <= |nodes|
        invariant ScanFrom(cfg, At(), p).0 == old(ScanFrom(cfg, At(), |nodes|)).0
        invariant ScanFrom(cfg, At(), p).1 + successes == old(ScanFrom(cfg, At(), |nodes|)).1
      {
        p := p - 1;
        var ok;
        if Parses(nodes[p].insn, cfg.frame) {
          ok := VisitAdd(p);
        } else {
          ok := VisitOther(p);
        }
        successes := successes + if ok then 1 else 0;
      }
    }

    /** Scans until nothing merges any more.  Every repetition starts from cleared arrays and has fewer additions. */
    method Merge(ghost insns: seq<Insn>)
      requires At() == Start(insns)
      modifies this
      ensures Flatten(nodes) == MergeInBlock(cfg, insns)
      decreases AddCount(Numbered(insns, 0))
    {
      FlattenNumbered(insns, 0);
      var successes := ScanOnce();
      if successes > 0 {
        ScanCounts(cfg, insns);
        ghost var next := Flatten(nodes);
        var flat := Flatten(nodes);
        nodes, arrays, limit := Numbered(flat, 0), NO_ARRAYS, |flat|;
        Merge(next);
      } else {
        ScanFromCounts(cfg, Start(insns), |insns|);
        NoMergeNoChange(cfg, Start(insns), |insns|);
      }
    }
  }

  lemma {:induction false} NoMergeNoChange(cfg: Config, st: Point, p: nat)
    requires p <= |st.nodes| && ScanFrom(cfg, st, p).1 == 0
    ensures ScanFrom(cfg, st, p).0.nodes == st.nodes
    decreases p
  {
    hide Visit, EnterOnly;
    if p == 0 {
    } else {
      VisitWithoutMerge(cfg, st, p - 1);
      NoMergeNoChange(cfg, Visit(cfg, st, p - 1).0, p - 1);
    }
  }
}
