/** The three next-reference arrays of the auto-increment pass: what they must say about the instructions behind the
    scan point, and how one instruction, or one committed merge, changes them. */
module AutoIncArrays {
  import opened Options
  import opened Rtl
  import opened AutoIncMerge

  /** An array indexed by register; an absent register holds the null pointer. */
  type Next = map<Reg, nat>

  /** reg_next_use, reg_next_inc_use and reg_next_def. */
  datatype Arrays = Arrays(use: Next, inc: Next, def: Next)

  const NO_ARRAYS := Arrays(map[], map[], map[])

  function Entry(a: Next, r: Reg): Option<nat> {
    if r in a then Some(a[r]) else None
  }

  // ----- What is behind the scan point -----

  /** The first instruction that defines `r`. */
  function NextDef(t: seq<Node>, r: Reg): Option<nat> {
    if t == [] then None else if t[0].Defs(r) then Some(t[0].uid) else NextDef(t[1..], r)
  }

  /** The first instruction that mentions `r`. */
  function NextRef(t: seq<Node>, r: Reg): Option<Node> {
    if t == [] then None else if t[0].Refs(r) then Some(t[0]) else NextRef(t[1..], r)
  }

  /** `uid` is an addition to `r` reached without `r` being defined on the way. */
  predicate AddReached(t: seq<Node>, r: Reg, uid: nat) {
    && t != []
    && if t[0].uid == uid then t[0].insn.Add? && t[0].lead == NoLead && t[0].insn.reg0 == r
       else !t[0].Defs(r) && AddReached(t[1..], r, uid)
  }

  /** The entries of one register, as the documentation of the arrays describes them: the next reader if no writer comes
      first, the same when that reader is an addition, and the next writer. */
  predicate Exact(t: seq<Node>, r: Reg, frame: Reg, use: Option<nat>, inc: Option<nat>, def: Option<nat>) {
    && def == NextDef(t, r)
    && match NextRef(t, r)
       case None => use == None && inc == None
       case Some(n) =>
         && use == (if n.Uses(r) then Some(n.uid) else None)
         && inc == (if n.Uses(r) && Parses(n.insn, frame) then Some(n.uid) else None)
  }

  /** What the merges rely on.  It is weaker than Exact, because a committed merge patches the arrays by hand: a reader
      that is also a writer may be missing, and an addition may be recorded behind a copy of the register. */
  predicate Sound(t: seq<Node>, r: Reg, use: Option<nat>, inc: Option<nat>, def: Option<nat>) {
    && def == NextDef(t, r)
    && match NextRef(t, r)
       case None => use == None && inc == None
       case Some(n) =>
         && (use == Some(n.uid) || (use == None && n.Defs(r)))
         && (inc.Some? ==> AddReached(t, r, inc.value) && !n.insn.Op?)
  }

  predicate SoundFor(t: seq<Node>, a: Arrays, r: Reg) {
    Sound(t, r, Entry(a.use, r), Entry(a.inc, r), Entry(a.def, r))
  }

  predicate ExactFor(t: seq<Node>, a: Arrays, r: Reg, frame: Reg) {
    Exact(t, r, frame, Entry(a.use, r), Entry(a.inc, r), Entry(a.def, r))
  }

  ghost predicate AllSound(t: seq<Node>, a: Arrays) {
    forall r :: SoundFor(t, a, r)
  }

  ghost predicate AllExact(t: seq<Node>, a: Arrays, frame: Reg) {
    forall r :: ExactFor(t, a, r, frame)
  }

  /** An instruction the pass parses as an addition; the frame pointer is never auto-incremented. */
  predicate Parses(i: Insn, frame: Reg) {
    i.Add? && i.reg0 != frame
  }

  /** A leading copy belongs to an access that auto-modifies its target and does not mention its source. */
  ghost predicate LeadOk(n: Node) {
    n.lead.Lead? ==>
      && n.insn.Op? && n.lead.dst != n.lead.src && !n.insn.Refs(n.lead.src)
      && exists k: nat :: OnlyAt(n.insn, n.lead.dst, k) && n.insn.mems[k].addr.IsAuto() && n.insn.mems[k].addr.base == n.lead.dst
  }

  ghost predicate WellFormed(t: seq<Node>) {
    && (forall i, j :: 0 <= i < j < |t| ==> t[i].uid != t[j].uid)
    && (forall i :: 0 <= i < |t| ==> LeadOk(t[i]))
  }

  // ----- The entries and positions -----

  lemma {:induction false} NextRefAt(t: seq<Node>, r: Reg, j: nat)
    requires WellFormed(t) && j < |t| && NextRef(t, r).Some? && NextRef(t, r).value.uid == t[j].uid
    ensures NextRef(t, r).value == t[j] && t[j].Refs(r)
    ensures forall i :: 0 <= i < j ==> !t[i].Refs(r)
  {
    if !t[0].Refs(r) {
      if j == 0 {
        NextRefIn(t[1..], r);
      } else {
        NextRefAt(t[1..], r, j - 1);
      }
    } else {
      assert j == 0;
    }
  }

  lemma {:induction false} NextRefIn(t: seq<Node>, r: Reg)
    requires NextRef(t, r).Some?
    ensures exists j :: 0 <= j < |t| && t[j] == NextRef(t, r).value
    ensures NextRef(t, r).value.Refs(r)
  {
    if t[0].Refs(r) {
      assert t[0] == NextRef(t, r).value;
    } else {
      NextRefIn(t[1..], r);
      var j :| 0 <= j < |t[1..]| && t[1..][j] == NextRef(t[1..], r).value;
      assert t[j + 1] == NextRef(t, r).value;
    }
  }

  lemma {:induction false} NextDefIn(t: seq<Node>, r: Reg)
    requires NextDef(t, r).Some?
    ensures exists j :: 0 <= j < |t| && t[j].uid == NextDef(t, r).value
  {
    if t[0].Defs(r) {
      assert t[0].uid == NextDef(t, r).value;
    } else {
      NextDefIn(t[1..], r);
      var j :| 0 <= j < |t[1..]| && t[1..][j].uid == NextDef(t[1..], r).value;
      assert t[j + 1].uid == NextDef(t, r).value;
    }
  }

  lemma {:induction false} NextDefAt(t: seq<Node>, r: Reg, j: nat)
    requires WellFormed(t) && j < |t| && NextDef(t, r) == Some(t[j].uid)
    ensures t[j].Defs(r)
    ensures forall i :: 0 <= i < j ==> !t[i].Defs(r)
  {
    if !t[0].Defs(r) {
      if j == 0 {
        NextDefIn(t[1..], r);
      } else {
        NextDefAt(t[1..], r, j - 1);
      }
    } else {
      assert j == 0;
    }
  }

  lemma {:induction false} NoDefAtAll(t: seq<Node>, r: Reg)
    requires NextDef(t, r) == None
    ensures forall i :: 0 <= i < |t| ==> !t[i].Defs(r)
  {
    if t == [] {
    } else {
      NoDefAtAll(t[1..], r);
    }
  }

  lemma {:induction false} AddReachedAt(t: seq<Node>, r: Reg, j: nat)
    requires WellFormed(t) && j < |t| && AddReached(t, r, t[j].uid)
    ensures t[j].insn.Add? && t[j].lead == NoLead && t[j].insn.reg0 == r
    ensures forall i :: 0 <= i < j ==> !t[i].Defs(r)
  {
    if j == 0 {
    } else {
      AddReachedAt(t[1..], r, j - 1);
    }
  }

  // ----- Local changes of the instructions behind the scan point -----

  /** A change of node `j` that register `r` does not notice. */
  predicate SameFor(n: Node, n': Node, r: Reg) {
    n'.uid == n.uid && n.insn.Op? && n'.insn.Op? && n'.Defs(r) == n.Defs(r) && n'.Refs(r) == n.Refs(r)
  }

  lemma {:induction false} UpdateSameDef(t: seq<Node>, j: nat, n: Node, r: Reg)
    requires j < |t| && n.uid == t[j].uid && t[j].insn.Op? && n.insn.Op? && n.Defs(r) == t[j].Defs(r)
    ensures NextDef(t[j := n], r) == NextDef(t, r)
    ensures forall uid :: AddReached(t, r, uid) ==> AddReached(t[j := n], r, uid)
  {
    if j > 0 {
      UpdateSameDef(t[1..], j - 1, n, r);
      assert t[j := n][1..] == t[1..][j - 1 := n];
    } else {
      assert t[j := n][1..] == t[1..];
    }
  }

  lemma {:induction false} UpdateSameRef(t: seq<Node>, j: nat, n: Node, r: Reg)
    requires j < |t| && SameFor(t[j], n, r)
    ensures NextRef(t[j := n], r).Some? == NextRef(t, r).Some?
    ensures NextRef(t, r).Some? ==>
              var x, y := NextRef(t, r).value, NextRef(t[j := n], r).value;
              y.uid == x.uid && y.Defs(r) == x.Defs(r) && y.insn.Op? == x.insn.Op?
  {
    if j > 0 {
      UpdateSameRef(t[1..], j - 1, n, r);
      assert t[j := n][1..] == t[1..][j - 1 := n];
    } else {
      assert t[j := n][1..] == t[1..];
    }
  }

  lemma UpdateSound(t: seq<Node>, a: Arrays, j: nat, n: Node, r: Reg)
    requires j < |t| && SameFor(t[j], n, r) && SoundFor(t, a, r)
    ensures SoundFor(t[j := n], a, r)
  {
    UpdateSameDef(t, j, n, r);
    UpdateSameRef(t, j, n, r);
  }

  lemma {:induction false} RemoveSame(t: seq<Node>, q: nat, r: Reg)
    requires q < |t| && !t[q].Refs(r)
    ensures NextDef(Remove(t, q), r) == NextDef(t, r)
    ensures NextRef(Remove(t, q), r) == NextRef(t, r)
    ensures forall uid :: AddReached(t, r, uid) ==> AddReached(Remove(t, q), r, uid)
  {
    if q > 0 {
      RemoveSame(t[1..], q - 1, r);
      assert Remove(t, q)[1..] == Remove(t[1..], q - 1);
    } else {
      assert Remove(t, q) == t[1..];
    }
  }

  /** As RemoveSame, for the definitions alone. */
  lemma {:induction false} RemoveSameDef(t: seq<Node>, q: nat, r: Reg)
    requires q < |t| && !t[q].Defs(r)
    ensures NextDef(Remove(t, q), r) == NextDef(t, r)
  {
    if q > 0 {
      RemoveSameDef(t[1..], q - 1, r);
      assert Remove(t, q)[1..] == Remove(t[1..], q - 1);
    } else {
      assert Remove(t, q) == t[1..];
    }
  }

  /** The first mention, if it is at `j`. */
  lemma {:induction false} FirstAt(t: seq<Node>, j: nat, r: Reg)
    requires j < |t| && t[j].Refs(r) && forall i :: 0 <= i < j ==> !t[i].Refs(r)
    ensures NextRef(t, r) == Some(t[j])
    ensures t[j].Defs(r) ==> NextDef(t, r) == Some(t[j].uid)
  {
    if j == 0 {
    } else {
      FirstAt(t[1..], j - 1, r);
    }
  }

  // ----- Visiting an instruction -----

  /** The arrays after the instruction `i` at the scan point has been entered: first its definitions, then its uses. */
  ghost predicate Entered(a: Arrays, b: Arrays, i: Insn, uid: nat, isAdd: bool) {
    forall r ::
      && Entry(b.def, r) == (if i.Defs(r) then Some(uid) else Entry(a.def, r))
      && Entry(b.use, r) == (if i.Uses(r) then Some(uid) else if i.Defs(r) then None else Entry(a.use, r))
      && Entry(b.inc, r) == (if i.Uses(r) && isAdd then Some(uid) else if i.Refs(r) then None else Entry(a.inc, r))
  }

  lemma Prepend(n: Node, t: seq<Node>)
    ensures ([n] + t)[0] == n && ([n] + t)[1..] == t
  {
  }

  /** Entering an instruction keeps the arrays exact. */
  lemma EnterExact(n: Node, t: seq<Node>, a: Arrays, b: Arrays, frame: Reg)
    requires n.lead == NoLead && AllExact(t, a, frame)
    requires Entered(a, b, n.insn, n.uid, Parses(n.insn, frame))
    ensures AllExact([n] + t, b, frame)
  {
    Prepend(n, t);
    forall r
      ensures ExactFor([n] + t, b, r, frame)
    {
      assert ExactFor(t, a, r, frame);
    }
  }

  lemma EnterSound(n: Node, t: seq<Node>, a: Arrays, b: Arrays, frame: Reg)
    requires n.lead == NoLead && AllSound(t, a) && (forall i :: 0 <= i < |t| ==> t[i].uid != n.uid)
    requires Entered(a, b, n.insn, n.uid, Parses(n.insn, frame))
    ensures AllSound([n] + t, b)
  {
    Prepend(n, t);
    forall r
      ensures SoundFor([n] + t, b, r)
    {
      assert SoundFor(t, a, r);
      if Entry(b.inc, r).Some? && !n.insn.Refs(r) {
        AddReachedIn(t, r, b.inc[r]);
      }
    }
  }

  lemma {:induction false} AddReachedIn(t: seq<Node>, r: Reg, uid: nat)
    requires AddReached(t, r, uid)
    ensures exists i :: 0 <= i < |t| && t[i].uid == uid
  {
    if t[0].uid == uid {
    } else {
      AddReachedIn(t[1..], r, uid);
      var i :| 0 <= i < |t[1..]| && t[1..][i].uid == uid;
      assert t[i + 1].uid == uid;
    }
  }

  /** Exact arrays are sound. */
  lemma {:induction false} ExactIsSound(t: seq<Node>, a: Arrays, frame: Reg, r: Reg)
    requires WellFormed(t) && ExactFor(t, a, r, frame)
    ensures SoundFor(t, a, r)
  {
    if NextRef(t, r).Some? {
      NextRefIn(t, r);
      if Entry(a.inc, r).Some? {
        FirstRefAdd(t, r);
      }
    }
  }

  lemma {:induction false} FirstRefAdd(t: seq<Node>, r: Reg)
    requires WellFormed(t) && NextRef(t, r).Some? && NextRef(t, r).value.insn.Add? && NextRef(t, r).value.Uses(r)
    ensures AddReached(t, r, NextRef(t, r).value.uid)
  {
    if !t[0].Refs(r) {
      FirstRefAdd(t[1..], r);
      NextRefIn(t[1..], r);
    } else {
      assert LeadOk(t[0]);
    }
  }
}
