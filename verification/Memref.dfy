/** Disambiguating two memory references by their address expressions: canonicalisation, structural equality and the
    overlap test, against the bytes the references touch. */
module Memref {

  /** Address expressions: registers, integer constants, sums and bitwise ANDs. */
  datatype Rtx = Reg(n: nat) | Const(v: int) | Plus(x0: Rtx, x1: Rtx) | And(x0: Rtx, x1: Rtx)

  /** What the compiler knows while it compares addresses: the known values of registers, with a rank that witnesses that
      they are not circular; the simplifier for sums; and which expressions are the same object. */
  datatype Context = Context(known: map<nat, Rtx>, rank: nat -> nat, fold: (Rtx, Rtx) -> Rtx, same: (Rtx, Rtx) -> bool) {
    /** The known value that replaces register `n`, if there is one. */
    predicate Replaced(n: nat) {
      n in known && known[n] != Reg(n)
    }

    ghost predicate Acyclic() {
      forall n :: Replaced(n) ==> RankBelow(known[n], this, rank(n))
    }

    /** The simplifier preserves values, does not grow expressions and introduces no AND. */
    ghost predicate Folds()
      requires Acyclic()
    {
      && (forall x, y, e: Env :: Eval(fold(x, y), e) == Eval(x, e) + Eval(y, e))
      && (forall x, y :: Weight(fold(x, y), this) <= Weight(x, this) + Weight(y, this) + 1)
      && (forall x, y, limit :: RankBelow(x, this, limit) && RankBelow(y, this, limit) ==> RankBelow(fold(x, y), this, limit))
      && (forall x, y :: HasAnd(fold(x, y), this) ==> HasAnd(x, this) || HasAnd(y, this))
    }

    ghost predicate Valid() {
      Acyclic() && Folds() && forall x, y :: same(x, y) ==> x == y
    }
  }

  /** Register values and the bitwise AND of the machine. */
  datatype Env = Env(reg: nat -> int, land: (int, int) -> int) {
    /** AND is commutative, and with minus a power of two it aligns downwards. */
    ghost predicate Valid() {
      && (forall a, b :: land(a, b) == land(b, a))
      && (forall v, mask :: mask < 0 && IsPowerOfTwo(-mask) ==> land(v, mask) == v - v % (-mask))
    }

    ghost predicate Agrees(cx: Context) {
      forall n :: n in cx.known ==> reg(n) == Eval(cx.known[n], this)
    }
  }

  predicate IsPowerOfTwo(a: int)
    ensures IsPowerOfTwo(a) ==> a >= 1
  {
    a == 1 || (a > 1 && a % 2 == 0 && IsPowerOfTwo(a / 2))
  }

  function Eval(x: Rtx, e: Env): int {
    match x
    case Reg(n) => e.reg(n)
    case Const(v) => v
    case Plus(a, b) => Eval(a, e) + Eval(b, e)
    case And(a, b) => e.land(Eval(a, e), Eval(b, e))
  }

  /** Every register of `x` has a rank below `limit`. */
  predicate RankBelow(x: Rtx, cx: Context, limit: nat) {
    match x
    case Reg(n) => cx.rank(n) < limit
    case Const(_) => true
    case Plus(a, b) => RankBelow(a, cx, limit) && RankBelow(b, cx, limit)
    case And(a, b) => RankBelow(a, cx, limit) && RankBelow(b, cx, limit)
  }

  function Max(a: nat, b: nat): nat {
    if a < b then b else a
  }

  /** The least limit above all ranks of `x`. */
  function Rank(x: Rtx, cx: Context): (limit: nat)
    ensures RankBelow(x, cx, limit)
  {
    match x
    case Reg(n) => cx.rank(n) + 1
    case Const(_) => 0
    case Plus(a, b) => RankMono(a, cx, Rank(a, cx), Max(Rank(a, cx), Rank(b, cx)));
                       RankMono(b, cx, Rank(b, cx), Max(Rank(a, cx), Rank(b, cx))); Max(Rank(a, cx), Rank(b, cx))
    case And(a, b) => RankMono(a, cx, Rank(a, cx), Max(Rank(a, cx), Rank(b, cx)));
                      RankMono(b, cx, Rank(b, cx), Max(Rank(a, cx), Rank(b, cx))); Max(Rank(a, cx), Rank(b, cx))
  }

  lemma RankMono(x: Rtx, cx: Context, low: nat, high: nat)
    requires RankBelow(x, cx, low) && low <= high
    ensures RankBelow(x, cx, high)
  {
  }

  lemma RankLeast(x: Rtx, cx: Context, limit: nat)
    requires RankBelow(x, cx, limit)
    ensures Rank(x, cx) <= limit
  {
  }

  /** The size of `x` with every known register value written out. */
  ghost function Weight(x: Rtx, cx: Context): nat
    requires cx.Acyclic()
    ensures Weight(x, cx) >= 1
    decreases Rank(x, cx), x
  {
    match x
    case Reg(n) =>
      if cx.Replaced(n) then
        RankLeast(cx.known[n], cx, cx.rank(n));
        1 + Weight(cx.known[n], cx)
      else 1
    case Const(_) => 1
    case Plus(a, b) => 1 + Weight(a, cx) + Weight(b, cx)
    case And(a, b) => 1 + Weight(a, cx) + Weight(b, cx)
  }

  /** An AND occurs in `x` or in a known value it refers to. */
  ghost predicate HasAnd(x: Rtx, cx: Context)
    requires cx.Acyclic()
    decreases Rank(x, cx), x
  {
    match x
    case Reg(n) => cx.Replaced(n) && (RankLeast(cx.known[n], cx, cx.rank(n)); HasAnd(cx.known[n], cx))
    case Const(_) => false
    case Plus(a, b) => HasAnd(a, cx) || HasAnd(b, cx)
    case And(_, _) => true
  }

  /** Replaces registers by their known values, under sums. */
  ghost function Canon(x: Rtx, cx: Context): (r: Rtx)
    requires cx.Valid()
    ensures Weight(r, cx) <= Weight(x, cx)
    ensures HasAnd(r, cx) ==> HasAnd(x, cx)
    ensures forall e: Env :: e.Agrees(cx) ==> Eval(r, e) == Eval(x, e)
    decreases Rank(x, cx), x
  {
    match x
    case Reg(n) =>
      if cx.Replaced(n) then
        RankLeast(cx.known[n], cx, cx.rank(n));
        Canon(cx.known[n], cx)
      else x
    case Plus(a, b) =>
      var a', b' := Canon(a, cx), Canon(b, cx);
      if cx.same(a', a) && cx.same(b', b) then x else cx.fold(a', b')
    case _ => x
  }

  /** Structural equality of canonical expressions. */
  ghost predicate EqualForMemref(x: Rtx, y: Rtx, cx: Context)
    requires cx.Valid()
    decreases Weight(x, cx) + Weight(y, cx)
  {
    cx.same(x, y) ||
    match (x, y)
    case (Reg(m), Reg(n)) => m == n
    case (Plus(a, b), Plus(c, d)) =>
      || (EqualForMemref(a, c, cx) && EqualForMemref(b, d, cx))
      || (EqualForMemref(a, d, cx) && EqualForMemref(b, c, cx))
    case (And(a, b), And(c, d)) =>
      var a', b', c', d' := Canon(a, cx), Canon(b, cx), Canon(c, cx), Canon(d, cx);
      || (EqualForMemref(a', c', cx) && EqualForMemref(b', d', cx))
      || (EqualForMemref(a', d', cx) && EqualForMemref(b', c', cx))
    case _ => false
  }

  /** Equal expressions have equal values. */
  lemma {:induction false} EqualEval(x: Rtx, y: Rtx, cx: Context, e: Env)
    requires cx.Valid() && e.Valid() && e.Agrees(cx) && EqualForMemref(x, y, cx)
    ensures Eval(x, e) == Eval(y, e)
    decreases Weight(x, cx) + Weight(y, cx)
  {
    if cx.same(x, y) {
    } else {
      match (x, y)
      case (Reg(m), Reg(n)) =>
      case (Plus(a, b), Plus(c, d)) =>
        if EqualForMemref(a, c, cx) && EqualForMemref(b, d, cx) {
          EqualEval(a, c, cx, e);
          EqualEval(b, d, cx, e);
        } else {
          EqualEval(a, d, cx, e);
          EqualEval(b, c, cx, e);
        }
      case (And(a, b), And(c, d)) =>
        var a', b', c', d' := Canon(a, cx), Canon(b, cx), Canon(c, cx), Canon(d, cx);
        if EqualForMemref(a', c', cx) && EqualForMemref(b', d', cx) {
          EqualEval(a', c', cx, e);
          EqualEval(b', d', cx, e);
        } else {
          EqualEval(a', d', cx, e);
          EqualEval(b', c', cx, e);
        }
    }
  }

  // ----- The overlap test -----

  function Abs(s: int): nat {
    if s < 0 then -s else s
  }

  /** Whether `x` of size `xsize` and `y` of size `ysize`, `c` bytes further, may overlap. */
  predicate OffsetOverlap(c: int, xsize: int, ysize: int) {
    if xsize == 0 || ysize == 0 then true
    else if c >= 0 then Abs(xsize) > c
    else Abs(ysize) > -c
  }

  /** The byte ranges [a, a + m) and [b, b + n) have no byte in common. */
  predicate Disjoint(a: int, m: nat, b: int, n: nat) {
    a + m <= b || b + n <= a
  }

  datatype Answer = No | Maybe | Yes

  function Decided(overlap: bool): Answer {
    if overlap then Yes else No
  }

  /** The mask of an alignment: minus a power of two. */
  predicate IsAlignment(x: Rtx) {
    x.And? && x.x1.Const? && x.x1.v < 0 && IsPowerOfTwo(-x.x1.v)
  }

  /** The size of a reference widened to cover every alignment of its address; negative, to say that it was widened. */
  function Widened(size: int, mask: int): int {
    var s := if size > 0 then -size else size;
    if s != 0 then s + mask + 1 else s
  }

  /** A question: does the reference of `xsize` bytes at `x` overlap the one of `ysize` bytes at `y + c`? */
  datatype Query = Query(xsize: int, x: Rtx, ysize: int, y: Rtx, c: int) {
    ghost function Size(cx: Context): nat
      requires cx.Acyclic()
    {
      Weight(x, cx) + Weight(y, cx)
    }

    /** The first byte of `y` relative to that of `x`. */
    function Distance(e: Env): int {
      Eval(y, e) + c - Eval(x, e)
    }
  }

  /** One round of the test: an answer, or a simpler question. */
  datatype Round = Done(answer: Answer) | Ask(q: Query)

  ghost function AskSums(q: Query, cx: Context): Round
    requires cx.Valid() && q.x.Plus? && q.y.Plus?
  {
    var x, y := q.x, q.y;
    if cx.same(x.x0, y.x1) then Ask(q.(x := x.x1, y := y.x0))
    else if cx.same(x.x1, y.x0) then Ask(q.(x := x.x0, y := y.x1))
    else if EqualForMemref(x.x1, y.x1, cx) then Ask(q.(x := x.x0, y := y.x0))
    else if EqualForMemref(x.x0, y.x0, cx) then Ask(q.(x := x.x1, y := y.x1))
    else if x.x1.Const? then
      if y.x1.Const? then Ask(q.(x := x.x0, y := y.x0, c := q.c - x.x1.v + y.x1.v))
      else Ask(q.(x := x.x0, c := q.c - x.x1.v))
    else if y.x1.Const? then Ask(q.(y := y.x0, c := q.c + y.x1.v))
    else Done(Maybe)
  }

  ghost function AskAligned(q: Query, cx: Context): Round
    requires cx.Valid()
  {
    var x, y := q.x, q.y;
    if IsAlignment(x) then
      Ask(q.(xsize := Widened(q.xsize, x.x1.v), x := Canon(x.x0, cx), c := q.c - (x.x1.v + 1)))
    else if IsAlignment(y) then
      Ask(q.(ysize := Widened(q.ysize, y.x1.v), y := Canon(y.x0, cx), c := q.c + (y.x1.v + 1)))
    else if x.Const? && y.Const? then Done(Decided(OffsetOverlap(q.c + (y.v - x.v), q.xsize, q.ysize)))
    else Done(Maybe)
  }

  ghost function OneRound(q: Query, cx: Context): Round
    requires cx.Valid()
  {
    var x, y := q.x, q.y;
    if EqualForMemref(x, y, cx) then Done(Decided(OffsetOverlap(q.c, q.xsize, q.ysize)))
    else if x.Plus? && cx.same(x.x0, y) then Ask(q.(x := x.x1, y := Const(0)))
    else if x.Plus? && cx.same(x.x1, y) then Ask(q.(x := x.x0, y := Const(0)))
    else if x.Plus? && y.Plus? then AskSums(q, cx)
    else if x.Plus? && x.x1.Const? then Ask(q.(x := x.x0, c := q.c - x.x1.v))
    else if !x.Plus? && y.Plus? then
      if cx.same(x, y.x0) then Ask(q.(x := Const(0), y := y.x1))
      else if cx.same(x, y.x1) then Ask(q.(x := Const(0), y := y.x0))
      else if y.x1.Const? then Ask(q.(y := y.x0, c := q.c + y.x1.v))
      else Done(Maybe)
    else AskAligned(q, cx)
  }

  lemma RoundShrinks(q: Query, cx: Context)
    requires cx.Valid() && OneRound(q, cx).Ask?
    ensures OneRound(q, cx).q.Size(cx) < q.Size(cx)
  {
  }

  /** Whether the two references conflict. */
  ghost function Conflict(q: Query, cx: Context): Answer
    requires cx.Valid()
    decreases q.Size(cx)
  {
    match OneRound(q, cx)
    case Done(answer) => answer
    case Ask(next) =>
      RoundShrinks(q, cx);
      Conflict(next, cx)
  }

  // ----- What a round keeps -----

  /** The two questions are about ranges at the same distance and of the same sizes. */
  predicate SameDistance(p: Query, q: Query, e: Env) {
    p.Distance(e) == q.Distance(e) && p.xsize == q.xsize && p.ysize == q.ysize
  }

  lemma ConstEval(x: Rtx, e: Env)
    ensures x.Const? ==> Eval(x, e) == x.v
  {
  }

  lemma SumsKeepDistance(q: Query, cx: Context, e: Env)
    requires cx.Valid() && e.Valid() && e.Agrees(cx) && q.x.Plus? && q.y.Plus? && AskSums(q, cx).Ask?
    ensures SameDistance(AskSums(q, cx).q, q, e)
  {
    hide EqualForMemref;
    var x, y := q.x, q.y;
    ConstEval(x.x1, e);
    ConstEval(y.x1, e);
    if !cx.same(x.x0, y.x1) && !cx.same(x.x1, y.x0) {
      if EqualForMemref(x.x1, y.x1, cx) {
        EqualEval(x.x1, y.x1, cx, e);
      } else if EqualForMemref(x.x0, y.x0, cx) {
        EqualEval(x.x0, y.x0, cx, e);
      }
    }
  }

  /** Except when it looks through an alignment, a round keeps the distance and the sizes. */
  lemma RoundKeepsDistance(q: Query, cx: Context, e: Env)
    requires cx.Valid() && e.Valid() && e.Agrees(cx) && OneRound(q, cx).Ask? && OneRound(q, cx) != AskAligned(q, cx)
    ensures SameDistance(OneRound(q, cx).q, q, e)
  {
    hide EqualForMemref, AskAligned, AskSums;
    ConstEval(Const(0), e);
    if q.x.Plus? { ConstEval(q.x.x1, e); }
    if q.y.Plus? { ConstEval(q.y.x1, e); }
    if q.x.Plus? && q.y.Plus? && OneRound(q, cx) == AskSums(q, cx) {
      SumsKeepDistance(q, cx, e);
    }
  }

  /** Without ANDs a round does not look through an alignment, and asks about addresses without ANDs. */
  lemma RoundKeepsNoAnd(q: Query, cx: Context)
    requires cx.Valid() && OneRound(q, cx).Ask? && !HasAnd(q.x, cx) && !HasAnd(q.y, cx)
    ensures OneRound(q, cx) != AskAligned(q, cx)
    ensures !HasAnd(OneRound(q, cx).q.x, cx) && !HasAnd(OneRound(q, cx).q.y, cx)
  {
    hide EqualForMemref;
    assert !HasAnd(Const(0), cx);
  }

  lemma AlignedValue(x: Rtx, e: Env)
    requires IsAlignment(x) && e.Valid()
    ensures Eval(x, e) == Eval(x.x0, e) - Eval(x.x0, e) % (-x.x1.v)
  {
  }

  /** Aligning an address downwards: the reference stays inside its widened range. */
  lemma AlignedCovers(a: int, mask: int, size: int, v: int)
    requires mask < 0 && size != 0 && v == a - a % (-mask)
    ensures a + mask + 1 <= v <= a
    ensures v + Abs(size) <= a + mask + 1 + Abs(Widened(size, mask))
    ensures Widened(size, mask) != 0
  {
  }

  /** Looking through an alignment asks about ranges that cover the original ones. */
  lemma AlignedRound(q: Query, cx: Context, e: Env)
    requires cx.Valid() && e.Valid() && e.Agrees(cx) && AskAligned(q, cx).Ask? && q.xsize != 0 && q.ysize != 0
    ensures var next := AskAligned(q, cx).q;
            && next.xsize != 0 && next.ysize != 0
            && (Disjoint(0, Abs(next.xsize), next.Distance(e), Abs(next.ysize)) ==>
                  Disjoint(0, Abs(q.xsize), q.Distance(e), Abs(q.ysize)))
  {
    var x := if IsAlignment(q.x) then q.x else q.y;
    var size := if IsAlignment(q.x) then q.xsize else q.ysize;
    AlignedValue(x, e);
    AlignedCovers(Eval(x.x0, e), x.x1.v, size, Eval(x, e));
    hide Widened, IsPowerOfTwo;
  }

  lemma ZeroSizeStays(q: Query, cx: Context)
    requires cx.Valid() && (q.xsize == 0 || q.ysize == 0)
    ensures match OneRound(q, cx)
            case Done(answer) => answer != No
            case Ask(next) => next.xsize == 0 || next.ysize == 0
  {
  }

  lemma {:induction false} ZeroSizeNeverNo(q: Query, cx: Context)
    requires cx.Valid() && (q.xsize == 0 || q.ysize == 0)
    ensures Conflict(q, cx) != No
    decreases q.Size(cx)
  {
    ZeroSizeStays(q, cx);
    if !OneRound(q, cx).Ask? {
    } else {
      RoundShrinks(q, cx);
      ZeroSizeNeverNo(OneRound(q, cx).q, cx);
    }
  }

  /** A round that answers, answers by the distance. */
  lemma AnswerByDistance(q: Query, cx: Context, e: Env)
    requires cx.Valid() && e.Valid() && e.Agrees(cx) && OneRound(q, cx).Done? && OneRound(q, cx).answer != Maybe
    ensures OneRound(q, cx).answer == Decided(OffsetOverlap(q.Distance(e), q.xsize, q.ysize))
  {
    if EqualForMemref(q.x, q.y, cx) {
      EqualEval(q.x, q.y, cx, e);
    }
  }

  // ----- The two definite answers -----

  /** An answer "no" means that under every register valuation the two references touch disjoint bytes; references of
      unknown size are never answered "no". */
  lemma {:induction false} NoMeansDisjoint(q: Query, cx: Context, e: Env)
    requires cx.Valid() && e.Valid() && e.Agrees(cx) && Conflict(q, cx) == No
    ensures q.xsize != 0 && q.ysize != 0
    ensures Disjoint(Eval(q.x, e), Abs(q.xsize), Eval(q.y, e) + q.c, Abs(q.ysize))
    decreases q.Size(cx)
  {
    hide OneRound, AskAligned, EqualForMemref, Eval;
    if q.xsize == 0 || q.ysize == 0 {
      ZeroSizeNeverNo(q, cx);
    }
    var round := OneRound(q, cx);
    if round.Done? {
      AnswerByDistance(q, cx, e);
    } else {
      RoundShrinks(q, cx);
      NoMeansDisjoint(round.q, cx, e);
      if round == AskAligned(q, cx) {
        AlignedRound(q, cx, e);
      } else {
        RoundKeepsDistance(q, cx, e);
      }
    }
  }

  /** Without an AND in the addresses or the known values they refer to, and with known sizes, an answer "yes" means that
      under every register valuation the two references have a byte in common. */
  lemma {:induction false} YesMeansOverlap(q: Query, cx: Context, e: Env)
    requires cx.Valid() && e.Valid() && e.Agrees(cx) && Conflict(q, cx) == Yes
    requires q.xsize != 0 && q.ysize != 0 && !HasAnd(q.x, cx) && !HasAnd(q.y, cx)
    ensures !Disjoint(Eval(q.x, e), Abs(q.xsize), Eval(q.y, e) + q.c, Abs(q.ysize))
    decreases q.Size(cx)
  {
    hide OneRound, AskAligned, EqualForMemref, HasAnd;
    var round := OneRound(q, cx);
    if round.Done? {
      AnswerByDistance(q, cx, e);
    } else {
      RoundShrinks(q, cx);
      RoundKeepsNoAnd(q, cx);
      RoundKeepsDistance(q, cx, e);
      YesMeansOverlap(round.q, cx, e);
    }
  }

  // ----- What "yes" means when alignments are looked through -----

  /** How far looking through the alignment at the top of one of the addresses can move it. */
  ghost function AlignedBy(q: Query, cx: Context): nat
    requires cx.Valid() && AskAligned(q, cx).Ask?
  {
    -(if IsAlignment(q.x) then q.x.x1.v else q.y.x1.v) - 1
  }

  /** How far all the alignments that are looked through can, together. */
  ghost function Slack(q: Query, cx: Context): nat
    requires cx.Valid()
    decreases q.Size(cx)
  {
    match OneRound(q, cx)
    case Done(_) => 0
    case Ask(next) =>
      RoundShrinks(q, cx);
      Slack(next, cx) + if OneRound(q, cx) == AskAligned(q, cx) then AlignedBy(q, cx) else 0
  }

  /** At distance `d` the ranges share a byte, or would if one of them reached `slack` bytes further on both sides. */
  predicate Near(d: int, xsize: int, ysize: int, slack: nat) {
    d < Abs(xsize) + slack && -d < Abs(ysize) + slack
  }

  lemma AlignedNear(q: Query, cx: Context, e: Env, slack: nat)
    requires cx.Valid() && e.Valid() && e.Agrees(cx) && AskAligned(q, cx).Ask? && q.xsize != 0 && q.ysize != 0
    requires var next := AskAligned(q, cx).q; Near(next.Distance(e), next.xsize, next.ysize, slack)
    ensures Near(q.Distance(e), q.xsize, q.ysize, slack + AlignedBy(q, cx))
  {
    var x := if IsAlignment(q.x) then q.x else q.y;
    AlignedValue(x, e);
    AlignedRemainder(Eval(x.x0, e), -x.x1.v);
    hide IsPowerOfTwo;
  }

  lemma AlignedRemainder(a: int, m: int)
    requires m > 0
    ensures 0 <= a % m <= m - 1
  {
  }

  /** An answer "yes" means that under every register valuation the references come within the slack of each other; without an
      alignment that is looked through they share a byte. */
  lemma {:induction false} YesMeansNear(q: Query, cx: Context, e: Env)
    requires cx.Valid() && e.Valid() && e.Agrees(cx) && Conflict(q, cx) == Yes && q.xsize != 0 && q.ysize != 0
    ensures Near(q.Distance(e), q.xsize, q.ysize, Slack(q, cx))
    decreases q.Size(cx)
  {
    hide OneRound, AskAligned, EqualForMemref, Eval;
    var round := OneRound(q, cx);
    if round.Done? {
      AnswerByDistance(q, cx, e);
    } else {
      RoundShrinks(q, cx);
      if round == AskAligned(q, cx) {
        AlignedRound(q, cx, e);
        YesMeansNear(round.q, cx, e);
        AlignedNear(q, cx, e, Slack(round.q, cx));
      } else {
        RoundKeepsDistance(q, cx, e);
        YesMeansNear(round.q, cx, e);
      }
    }
  }

  // ----- Addresses with the same base are always decided -----

  /** Integer constants are shared, as the compiler's are. */
  ghost predicate SharesConstants(cx: Context) {
    forall v :: cx.same(Const(v), Const(v))
  }

  lemma {:induction false} EqualSelf(x: Rtx, cx: Context)
    requires cx.Valid() && SharesConstants(cx)
    ensures EqualForMemref(x, x, cx)
    decreases Weight(x, cx)
  {
    match x
    case Reg(n) =>
    case Const(v) =>
    case Plus(a, b) =>
      EqualSelf(a, cx);
      EqualSelf(b, cx);
    case And(a, b) =>
      EqualSelf(Canon(a, cx), cx);
      EqualSelf(Canon(b, cx), cx);
  }

  lemma ConstantsDecided(xsize: int, i: int, ysize: int, j: int, c: int, cx: Context)
    requires cx.Valid()
    ensures Conflict(Query(xsize, Const(i), ysize, Const(j), c), cx) == Decided(OffsetOverlap(c + (j - i), xsize, ysize))
  {
  }

  /** Two displacements from one base, whatever the base, are decided by the displacements alone. */
  lemma SameBaseDecided(xsize: int, ysize: int, b: Rtx, i: int, j: int, c: int, cx: Context)
    requires cx.Valid() && SharesConstants(cx)
    ensures Conflict(Query(xsize, Plus(b, Const(i)), ysize, Plus(b, Const(j)), c), cx)
         == Decided(OffsetOverlap(c + (j - i), xsize, ysize))
  {
    var x, y := Plus(b, Const(i)), Plus(b, Const(j));
    var q := Query(xsize, x, ysize, y, c);
    EqualSelf(b, cx);
    if EqualForMemref(x, y, cx) {
      EqualSumsSameBase(b, i, j, cx);
    } else {
      assert b < y && b < x;
      assert !cx.same(b, y) && !cx.same(Const(i), y);
      assert OneRound(q, cx) == AskSums(q, cx);
      assert i != j by { if i == j { EqualSelf(x, cx); } }
      assert !EqualForMemref(Const(i), Const(j), cx);
      assert AskSums(q, cx) == Ask(Query(xsize, Const(i), ysize, Const(j), c));
      ConstantsDecided(xsize, i, ysize, j, c, cx);
    }
  }

  /** Equal sums over one base have equal displacements. */
  lemma EqualSumsSameBase(b: Rtx, i: int, j: int, cx: Context)
    requires cx.Valid() && EqualForMemref(Plus(b, Const(i)), Plus(b, Const(j)), cx)
    ensures i == j
  {
    if EqualForMemref(b, Const(j), cx) && EqualForMemref(Const(i), b, cx) {
      assert cx.same(b, Const(j)) && cx.same(Const(i), b);
    }
  }

  // ----- Displacements in any depth -----

  /** Constants added one after the other to the base `b`. */
  predicate Displaced(x: Rtx, b: Rtx) {
    x == b || (x.Plus? && x.x1.Const? && Displaced(x.x0, b))
  }

  /** What the constants add up to. */
  function Offset(x: Rtx, b: Rtx): int
    requires Displaced(x, b)
  {
    if x == b then 0 else Offset(x.x0, b) + x.x1.v
  }

  /** Equal sums of this kind over one base have equal displacements. */
  lemma {:induction false} EqualDisplaced(x: Rtx, y: Rtx, b: Rtx, cx: Context)
    requires cx.Valid() && !b.Plus? && !b.Const? && Displaced(x, b) && Displaced(y, b) && EqualForMemref(x, y, cx)
    ensures Offset(x, b) == Offset(y, b)
    decreases x
  {
    if x == b || y == b || cx.same(x, y) {
      assert x == y;
    } else {
      assert !EqualForMemref(x.x0, y.x1, cx);
      EqualDisplaced(x.x0, y.x0, b, cx);
    }
  }

  /** Two addresses at constant displacements from one base, however the constants are nested and whatever the base is, are always
      decided, and by their distance alone. */
  lemma {:induction false} DisplacedDecided(q: Query, b: Rtx, cx: Context)
    requires cx.Valid() && SharesConstants(cx) && !b.Plus? && !b.Const? && Displaced(q.x, b) && Displaced(q.y, b)
    ensures Conflict(q, cx) == Decided(OffsetOverlap(q.c + Offset(q.y, b) - Offset(q.x, b), q.xsize, q.ysize))
    decreases q.Size(cx)
  {
    hide Conflict, OneRound, EqualForMemref, OffsetOverlap;
    ConflictUnfold(q, cx);
    DisplacedRound(q, b, cx);
    if OneRound(q, cx).Ask? {
      var next := OneRound(q, cx).q;
      RoundShrinks(q, cx);
      if next.x.Const? {
        ConstantsDecided(next.xsize, next.x.v, next.ysize, next.y.v, next.c, cx);
      } else {
        DisplacedDecided(next, b, cx);
      }
    }
  }

  /** Two constants, or two such addresses, `d` apart. */
  predicate AtDistance(q: Query, b: Rtx, d: int) {
    if q.x.Const? then q.y.Const? && q.c + (q.y.v - q.x.v) == d
    else Displaced(q.x, b) && Displaced(q.y, b) && q.c + Offset(q.y, b) - Offset(q.x, b) == d
  }

  lemma ConflictUnfold(q: Query, cx: Context)
    requires cx.Valid()
    ensures match OneRound(q, cx)
            case Done(answer) => Conflict(q, cx) == answer
            case Ask(next) => Conflict(q, cx) == Conflict(next, cx)
  {
  }

  /** A round about such addresses answers, or asks about two constants or two such addresses at the same distance. */
  lemma DisplacedRound(q: Query, b: Rtx, cx: Context)
    requires cx.Valid() && SharesConstants(cx) && !b.Plus? && !b.Const? && Displaced(q.x, b) && Displaced(q.y, b)
    ensures var d := q.c + Offset(q.y, b) - Offset(q.x, b);
            match OneRound(q, cx)
            case Done(answer) => answer == Decided(OffsetOverlap(d, q.xsize, q.ysize))
            case Ask(next) => next.xsize == q.xsize && next.ysize == q.ysize && AtDistance(next, b, d)
  {
    hide EqualForMemref, OffsetOverlap;
    var x, y := q.x, q.y;
    if EqualForMemref(x, y, cx) {
      EqualDisplaced(x, y, b, cx);
    } else if x == b && y == b {
      EqualSelf(b, cx);
    } else if x.Plus? && y.Plus? && EqualForMemref(x.x0, y.x0, cx) {
      EqualDisplaced(x.x0, y.x0, b, cx);
    }
    if x.Plus? && y.Plus? && EqualForMemref(x.x1, y.x1, cx) {
      EqualConstants(x.x1, y.x1, cx);
    }
  }

  lemma EqualConstants(x: Rtx, y: Rtx, cx: Context)
    requires cx.Valid() && x.Const? && y.Const? && EqualForMemref(x, y, cx)
    ensures x == y
  {
  }

  /** With the constant in front of the base, which canonical sums do not have, the code gives up unless the two bases are the
      same object. */
  lemma ConstantInFront(xsize: int, ysize: int, r: nat, k: int, c: int, cx: Context)
    requires cx.Valid() && !cx.same(Reg(r), Reg(r))
    ensures Conflict(Query(xsize, Plus(Const(k), Reg(r)), ysize, Reg(r), c), cx) == Maybe
  {
  }

  // ----- Bases that are one object -----

  /** `p + k` in either order. */
  predicate Sums(x: Rtx, p: Rtx, k: int) {
    x == Plus(p, Const(k)) || x == Plus(Const(k), p)
  }

  /** Where the base is one object in both addresses, the constants may stand in front of it or behind, or be missing. */
  lemma SharedBaseDecided(q: Query, p: Rtx, i: int, j: int, cx: Context)
    requires cx.Valid() && SharesConstants(cx) && cx.same(p, p) && !p.Plus? && !p.Const?
    requires Sums(q.x, p, i) || (q.x == p && i == 0)
    requires Sums(q.y, p, j) || (q.y == p && j == 0)
    ensures Conflict(q, cx) == Decided(OffsetOverlap(q.c + j - i, q.xsize, q.ysize))
  {
    hide Conflict, OneRound, EqualForMemref, OffsetOverlap;
    SharedRound(q, p, i, j, cx);
    ConflictUnfold(q, cx);
    if OneRound(q, cx).Ask? {
      var next := OneRound(q, cx).q;
      ConflictUnfold(next, cx);
      if next.x.Const? {
        ConstantsDecided(next.xsize, next.x.v, next.ysize, next.y.v, next.c, cx);
      } else {
        DisplacedDecided(next, p, cx);
      }
    }
  }

  lemma SharedRound(q: Query, p: Rtx, i: int, j: int, cx: Context)
    requires cx.Valid() && SharesConstants(cx) && cx.same(p, p) && !p.Plus? && !p.Const?
    requires Sums(q.x, p, i) || (q.x == p && i == 0)
    requires Sums(q.y, p, j) || (q.y == p && j == 0)
    ensures match OneRound(q, cx)
            case Done(answer) => answer == Decided(OffsetOverlap(q.c + j - i, q.xsize, q.ysize))
            case Ask(next) => next.xsize == q.xsize && next.ysize == q.ysize && AtDistance(next, p, q.c + j - i)
  {
    hide OffsetOverlap, EqualForMemref;
    assert p != q.x ==> p < q.x;
    assert p != q.y ==> p < q.y;
    EqualShared(q.x, q.y, p, i, j, cx);
    if q.x.Plus? && q.y.Plus? {
      EqualParts(q.x.x0, q.y.x0, p, cx);
      EqualParts(q.x.x1, q.y.x1, p, cx);
    }
  }

  /** Equal among `p` and constants is the same. */
  lemma EqualParts(x: Rtx, y: Rtx, p: Rtx, cx: Context)
    requires cx.Valid() && SharesConstants(cx) && cx.same(p, p) && !p.Plus? && !p.Const?
    requires (x == p || x.Const?) && (y == p || y.Const?)
    ensures EqualForMemref(x, y, cx) <==> x == y
  {
  }

  lemma EqualShared(x: Rtx, y: Rtx, p: Rtx, i: int, j: int, cx: Context)
    requires cx.Valid() && SharesConstants(cx) && cx.same(p, p) && !p.Plus? && !p.Const?
    requires Sums(x, p, i) || (x == p && i == 0)
    requires Sums(y, p, j) || (y == p && j == 0)
    ensures EqualForMemref(x, y, cx) ==> i == j
    ensures x == y ==> EqualForMemref(x, y, cx)
  {
    if x.Plus? && y.Plus? {
      EqualParts(x.x0, y.x0, p, cx);
      EqualParts(x.x1, y.x1, p, cx);
      EqualParts(x.x0, y.x1, p, cx);
      EqualParts(x.x1, y.x0, p, cx);
    }
  }

  /** An address that adds something to the other one, as one object, is compared by what it adds. */
  lemma SharedBaseRemoved(q: Query, p: Rtx, z: Rtx, cx: Context)
    requires cx.Valid() && cx.same(p, p)
    ensures q.y == p && (q.x == Plus(p, z) || q.x == Plus(z, p)) && !EqualForMemref(q.x, p, cx) ==>
              Conflict(q, cx) == Conflict(q.(x := z, y := Const(0)), cx)
    ensures q.x == p && !p.Plus? && (q.y == Plus(p, z) || q.y == Plus(z, p)) && !EqualForMemref(p, q.y, cx) ==>
              Conflict(q, cx) == Conflict(q.(x := Const(0), y := z), cx)
  {
    hide Conflict, EqualForMemref;
    ConflictUnfold(q, cx);
  }

  // ----- Alignments -----

  /** An aligned base against a displacement from the same base is always decided: by the range that the alignment may move. */
  lemma {:induction false} AlignedDecided(q: Query, b: Rtx, cx: Context)
    requires cx.Valid() && SharesConstants(cx) && b.Reg? && !cx.Replaced(b.n)
    requires IsAlignment(q.x) && q.x.x0 == b && Displaced(q.y, b)
    ensures Conflict(q, cx) ==
            Decided(OffsetOverlap(q.c + Offset(q.y, b) - (q.x.x1.v + 1), Widened(q.xsize, q.x.x1.v), q.ysize))
    decreases q.y
  {
    hide Conflict, OffsetOverlap, Widened, IsPowerOfTwo;
    ConflictUnfold(q, cx);
    if q.y == b {
      var next := q.(xsize := Widened(q.xsize, q.x.x1.v), x := b, c := q.c - (q.x.x1.v + 1));
      assert OneRound(q, cx) == Ask(next);
      DisplacedDecided(next, b, cx);
    } else {
      AlignedDecided(q.(y := q.y.x0, c := q.c + q.y.x1.v), b, cx);
    }
  }

  /** The same the other way round. */
  lemma {:induction false} AlignedSecondDecided(q: Query, b: Rtx, cx: Context)
    requires cx.Valid() && SharesConstants(cx) && b.Reg? && !cx.Replaced(b.n)
    requires IsAlignment(q.y) && q.y.x0 == b && Displaced(q.x, b)
    ensures Conflict(q, cx) ==
            Decided(OffsetOverlap(q.c - Offset(q.x, b) + (q.y.x1.v + 1), q.xsize, Widened(q.ysize, q.y.x1.v)))
    decreases q.x
  {
    hide Conflict, OffsetOverlap, Widened, IsPowerOfTwo;
    ConflictUnfold(q, cx);
    if q.x == b {
      var next := q.(ysize := Widened(q.ysize, q.y.x1.v), y := b, c := q.c + (q.y.x1.v + 1));
      assert OneRound(q, cx) == Ask(next);
      DisplacedDecided(next, b, cx);
    } else {
      AlignedSecondDecided(q.(x := q.x.x0, c := q.c - q.x.x1.v), b, cx);
    }
  }

  // ----- What is equal, and what is replaced -----

  /** The operands of a sum or an AND may be exchanged. */
  lemma EqualCommutes(x: Rtx, y: Rtx, cx: Context)
    requires cx.Valid() && SharesConstants(cx)
    ensures EqualForMemref(Plus(x, y), Plus(y, x), cx) && EqualForMemref(And(x, y), And(y, x), cx)
  {
    EqualSelf(x, cx);
    EqualSelf(y, cx);
    EqualSelf(Canon(x, cx), cx);
    EqualSelf(Canon(y, cx), cx);
  }

  /** Register `n` occurs in `x` outside of ANDs. */
  predicate Open(x: Rtx, n: nat) {
    match x
    case Reg(m) => m == n
    case Const(_) => false
    case Plus(a, b) => Open(a, n) || Open(b, n)
    case And(_, _) => false
  }

  /** The simplifier brings in no registers. */
  ghost predicate FoldKeepsRegisters(cx: Context) {
    forall x, y, n :: Open(cx.fold(x, y), n) ==> Open(x, n) || Open(y, n)
  }

  /** Outside of ANDs the canonical form has no register left that has another known value. */
  lemma {:induction false} CanonReplacesAll(x: Rtx, n: nat, cx: Context)
    requires cx.Valid() && FoldKeepsRegisters(cx) && Open(Canon(x, cx), n)
    ensures !cx.Replaced(n)
    decreases Rank(x, cx), x
  {
    match x
    case Reg(m) =>
      if cx.Replaced(m) {
        RankLeast(cx.known[m], cx, cx.rank(m));
        CanonReplacesAll(cx.known[m], n, cx);
      }
    case Plus(a, b) =>
      if Open(Canon(a, cx), n) { CanonReplacesAll(a, n, cx); }
      if Open(Canon(b, cx), n) { CanonReplacesAll(b, n, cx); }
    case _ =>
  }

  // ----- References that update their address register -----

  /** An address as it stands in a memory reference. */
  datatype Address = Plain(x: Rtx) | PreInc(n: nat) | PreDec(n: nat) | PostInc(n: nat) | PostDec(n: nat)

  /** A register plus a constant. */
  function PlusConstant(n: nat, c: int): Rtx {
    if c == 0 then Reg(n) else Plus(Reg(n), Const(c))
  }

  /** The address of the (nRefs + 1)th reference. */
  ghost function SideEffectEval(a: Address, size: int, nRefs: nat, cx: Context): Rtx
    requires cx.Valid()
  {
    match a
    case Plain(x) => x
    case PreInc(n) => Canon(PlusConstant(n, (nRefs + 1) * size), cx)
    case PreDec(n) => Canon(PlusConstant(n, 0 - (nRefs + 1) * size), cx)
    case PostInc(n) => Canon(PlusConstant(n, nRefs * size), cx)
    case PostDec(n) => Canon(PlusConstant(n, 0 - nRefs * size), cx)
  }

  /** What one reference of `size` bytes does: the address it touches and the new value of its register, from the value
      `v` of the register. */
  function Touch(a: Address, size: int, v: int): (int, int)
    requires !a.Plain?
  {
    match a
    case PreInc(_) => (v + size, v + size)
    case PreDec(_) => (v - size, v - size)
    case PostInc(_) => (v, v + size)
    case PostDec(_) => (v, v - size)
  }

  /** The address touched by the last of `k` + 1 consecutive references. */
  function TouchLast(a: Address, size: int, v: int, k: nat): int
    requires !a.Plain?
    decreases k
  {
    if k == 0 then Touch(a, size, v).0 else TouchLast(a, size, Touch(a, size, v).1, k - 1)
  }

  lemma {:induction false} TouchLastValue(a: Address, size: int, v: int, k: nat)
    requires !a.Plain?
    ensures TouchLast(a, size, v, k)
         == v + (match a
                 case PreInc(_) => (k + 1) * size
                 case PreDec(_) => 0 - (k + 1) * size
                 case PostInc(_) => k * size
                 case PostDec(_) => 0 - k * size)
    decreases k
  {
    if k == 0 {
    } else {
      TouchLastValue(a, size, Touch(a, size, v).1, k - 1);
    }
  }

  /** The address computed for the (nRefs + 1)th reference is the one the references, executed one after the other, reach. */
  lemma SideEffectEvalCorrect(a: Address, size: int, nRefs: nat, cx: Context, e: Env)
    requires cx.Valid() && e.Agrees(cx) && !a.Plain?
    ensures Eval(SideEffectEval(a, size, nRefs, cx), e) == TouchLast(a, size, e.reg(a.n), nRefs)
  {
    TouchLastValue(a, size, e.reg(a.n), nRefs);
  }

  /** The address a reference touches first. */
  function Touched(a: Address, size: int, e: Env): int {
    if a.Plain? then Eval(a.x, e) else Touch(a, size, e.reg(a.n)).0
  }

  /** The test applied to two references. */
  ghost function MemrefsConflict(xsize: int, x: Address, ysize: int, y: Address, c: int, cx: Context): Answer
    requires cx.Valid()
  {
    Conflict(Query(xsize, SideEffectEval(x, Abs(xsize), 0, cx), ysize, SideEffectEval(y, Abs(ysize), 0, cx), c), cx)
  }

  ghost predicate AddressHasAnd(a: Address, cx: Context)
    requires cx.Valid()
  {
    HasAnd(if a.Plain? then a.x else Reg(a.n), cx)
  }

  /** The address a reference is compared by is the one it touches first, and has an AND only if the reference has. */
  lemma FirstAddress(a: Address, size: nat, cx: Context, e: Env)
    requires cx.Valid() && e.Valid() && e.Agrees(cx)
    ensures Eval(SideEffectEval(a, size, 0, cx), e) == Touched(a, size, e)
    ensures HasAnd(SideEffectEval(a, size, 0, cx), cx) ==> AddressHasAnd(a, cx)
  {
    if !a.Plain? { SideEffectEvalCorrect(a, size, 0, cx, e); }
  }

  /** The soundness of both definite answers for references as they stand in the program. */
  lemma MemrefsConflictSound(xsize: int, x: Address, ysize: int, y: Address, c: int, cx: Context, e: Env)
    requires cx.Valid() && e.Valid() && e.Agrees(cx)
    ensures MemrefsConflict(xsize, x, ysize, y, c, cx) == No ==>
              xsize != 0 && ysize != 0
              && Disjoint(Touched(x, Abs(xsize), e), Abs(xsize), Touched(y, Abs(ysize), e) + c, Abs(ysize))
    ensures MemrefsConflict(xsize, x, ysize, y, c, cx) == Yes && xsize != 0 && ysize != 0
            && !AddressHasAnd(x, cx) && !AddressHasAnd(y, cx) ==>
              !Disjoint(Touched(x, Abs(xsize), e), Abs(xsize), Touched(y, Abs(ysize), e) + c, Abs(ysize))
  {
    hide SideEffectEval, Touched, AddressHasAnd, HasAnd, Conflict, Eval;
    FirstAddress(x, Abs(xsize), cx, e);
    FirstAddress(y, Abs(ysize), cx, e);
    var q := Query(xsize, SideEffectEval(x, Abs(xsize), 0, cx), ysize, SideEffectEval(y, Abs(ysize), 0, cx), c);
    if Conflict(q, cx) == No {
      NoMeansDisjoint(q, cx, e);
    } else if Conflict(q, cx) == Yes && xsize != 0 && ysize != 0 && !AddressHasAnd(x, cx) && !AddressHasAnd(y, cx) {
      YesMeansOverlap(q, cx, e);
    }
  }

  /** With an AND the answer "yes" may be wrong: the 4 bytes at the 8-aligned part of 7 and the 4 bytes at 4 are disjoint,
      but the widened range reaches 4. */
  lemma YesAfterAlignment(cx: Context, e: Env)
    requires cx.Valid() && e.Valid()
    ensures Conflict(Query(4, And(Const(7), Const(-8)), 4, Const(4), 0), cx) == Yes
    ensures Disjoint(Eval(And(Const(7), Const(-8)), e), 4, Eval(Const(4), e), 4)
  {
    assert IsPowerOfTwo(8) by { assert IsPowerOfTwo(1) && IsPowerOfTwo(2) && IsPowerOfTwo(4); }
    assert e.land(7, -8) == 0;
    ConstantsDecided(Widened(4, -8), 7, 4, 4, 7, cx);
  }
}
