/** When the search for a base term misses nothing, and the search as it works in place on the table of values. */
module BaseTermExact {
  import opened Options
  import opened BaseTerm

  /** No sum turns a base down: every base that can come up is known to be one. */
  ghost predicate AllKnown(fx: Facts) {
    && (forall r :: fx.regBase(r).Some? ==> KnownBase(fx.regBase(r).value))
    && KnownBase(fx.spBase)
    && (forall b :: KnownBase(b) ==> KnownBase(Converted(fx, b)))
  }

  /** The values `reach` are located only at each other, and those locations are free of sums, or no sum turns a base down. */
  ghost predicate Undemanding(fx: Facts, locs: Locs, reach: set<ValueId>) {
    forall id, k :: id in reach && 0 <= k < |At(locs, id)| ==> Easy(fx, reach, At(locs, id)[k])
  }

  ghost predicate Easy(fx: Facts, reach: set<ValueId>, x: Rtx) {
    x.Within(reach) && (AllKnown(fx) || x.SumFree())
  }

  /** If one of `reach` and another value are each other's location and the other is based on the stack pointer, so is the one. */
  ghost predicate StackConsistent(fx: Facts, locs: Locs, reach: set<ValueId>) {
    forall i, k :: i in reach && 0 <= k < |At(locs, i)| && At(locs, i)[k].Value? ==>
      var j := At(locs, i)[k].id;
      At(locs, j) == [Value(i)] && fx.spBased(j) ==> fx.spBased(i)
  }

  /** `locs` is `start` with the lists of the values in `cut` taken away. */
  ghost predicate CutTo(start: Locs, cut: set<ValueId>, locs: Locs) {
    forall id :: At(locs, id) == if id in cut then [] else At(start, id)
  }

  /** The values in `cut` beyond `before` have only locations without a base. */
  ghost predicate Barren(fx: Facts, locs: Locs, before: set<ValueId>, cut: set<ValueId>) {
    forall id, k :: id in cut && id !in before && 0 <= k < |At(locs, id)| ==> !HasBase(fx, locs, cut, At(locs, id)[k])
  }

  ghost predicate NotStack(fx: Facts, cut: set<ValueId>) {
    forall id :: id in cut ==> !fx.spBased(id)
  }

  lemma {:induction false} DerivesMono(fx: Facts, locs: Locs, small: set<ValueId>, big: set<ValueId>, x: Rtx, base: Rtx, n: nat)
    requires small <= big && Derives(fx, locs, big, x, base, n)
    ensures Derives(fx, locs, small, x, base, n)
    decreases n, x
  {
    match x
    case High(y) => DerivesMono(fx, locs, small, big, y, base, n);
    case Modify(y) => DerivesMono(fx, locs, small, big, y, base, n);
    case Truncate(y, _) => DerivesMono(fx, locs, small, big, y, base, n);
    case Extend(y) =>
      var b :| Derives(fx, locs, big, y, b, n) && base == Converted(fx, b);
      DerivesMono(fx, locs, small, big, y, b, n);
    case LoSum(_, y) => DerivesMono(fx, locs, small, big, y, base, n);
    case Const(Sum(a, b)) => OperandMono(fx, locs, small, big, a, b, base, n);
    case Sum(a, b) => OperandMono(fx, locs, small, big, a, b, base, n);
    case And(y, _) => DerivesMono(fx, locs, small, big, y, base, n);
    case Value(id) =>
      if !fx.spBased(id) {
        var k :| 0 <= k < |At(locs, id)| && Derives(fx, locs, big, At(locs, id)[k], base, n - 1);
        DerivesMono(fx, locs, small, big, At(locs, id)[k], base, n - 1);
      }
    case _ =>
  }

  lemma {:induction false} OperandMono(fx: Facts, locs: Locs, small: set<ValueId>, big: set<ValueId>, a: Rtx, b: Rtx,
                                       base: Rtx, n: nat)
    requires small <= big
    ensures Derives(fx, locs, big, a, base, n) ==> Derives(fx, locs, small, a, base, n)
    ensures Derives(fx, locs, big, b, base, n) ==> Derives(fx, locs, small, b, base, n)
    decreases n, Sum(a, b), 0
  {
    if Derives(fx, locs, big, a, base, n) { DerivesMono(fx, locs, small, big, a, base, n); }
    if Derives(fx, locs, big, b, base, n) { DerivesMono(fx, locs, small, big, b, base, n); }
  }

  lemma HasBaseMono(fx: Facts, locs: Locs, small: set<ValueId>, big: set<ValueId>, x: Rtx)
    requires small <= big && HasBase(fx, locs, big, x)
    ensures HasBase(fx, locs, small, x)
  {
    var base, n: nat :| Derives(fx, locs, big, x, base, n);
    DerivesMono(fx, locs, small, big, x, base, n);
  }

  lemma BarrenMono(fx: Facts, locs: Locs, before: set<ValueId>, mid: set<ValueId>, cut: set<ValueId>)
    requires before <= mid <= cut && Barren(fx, locs, before, mid) && Barren(fx, locs, mid, cut)
    ensures Barren(fx, locs, before, cut)
  {
    forall id, k | id in cut && id !in before && 0 <= k < |At(locs, id)| ensures !HasBase(fx, locs, cut, At(locs, id)[k]) {
      if id in mid && HasBase(fx, locs, cut, At(locs, id)[k]) {
        HasBaseMono(fx, locs, mid, cut, At(locs, id)[k]);
      }
    }
  }

  /** Taking away values that have no base loses no base of anything. */
  lemma {:induction false} BarrenLosesNothing(fx: Facts, locs: Locs, before: set<ValueId>, cut: set<ValueId>, x: Rtx, base: Rtx,
                                              n: nat)
    requires before <= cut && Barren(fx, locs, before, cut) && Derives(fx, locs, before, x, base, n)
    ensures Derives(fx, locs, cut, x, base, n)
    decreases n, x
  {
    match x
    case High(y) => BarrenLosesNothing(fx, locs, before, cut, y, base, n);
    case Modify(y) => BarrenLosesNothing(fx, locs, before, cut, y, base, n);
    case Truncate(y, _) => BarrenLosesNothing(fx, locs, before, cut, y, base, n);
    case Extend(y) =>
      var b :| Derives(fx, locs, before, y, b, n) && base == Converted(fx, b);
      BarrenLosesNothing(fx, locs, before, cut, y, b, n);
    case LoSum(_, y) => BarrenLosesNothing(fx, locs, before, cut, y, base, n);
    case Const(Sum(a, b)) => OperandsLoseNothing(fx, locs, before, cut, a, b, base, n);
    case Sum(a, b) => OperandsLoseNothing(fx, locs, before, cut, a, b, base, n);
    case And(y, _) => BarrenLosesNothing(fx, locs, before, cut, y, base, n);
    case Value(id) =>
      if !fx.spBased(id) {
        var k :| 0 <= k < |At(locs, id)| && Derives(fx, locs, before, At(locs, id)[k], base, n - 1);
        BarrenLosesNothing(fx, locs, before, cut, At(locs, id)[k], base, n - 1);
        assert HasBase(fx, locs, cut, At(locs, id)[k]);
      }
    case _ =>
  }

  lemma {:induction false} OperandsLoseNothing(fx: Facts, locs: Locs, before: set<ValueId>, cut: set<ValueId>, a: Rtx, b: Rtx,
                                               base: Rtx, n: nat)
    requires before <= cut && Barren(fx, locs, before, cut)
    ensures Derives(fx, locs, before, a, base, n) ==> Derives(fx, locs, cut, a, base, n)
    ensures Derives(fx, locs, before, b, base, n) ==> Derives(fx, locs, cut, b, base, n)
    decreases n, Sum(a, b), 0
  {
    if Derives(fx, locs, before, a, base, n) { BarrenLosesNothing(fx, locs, before, cut, a, base, n); }
    if Derives(fx, locs, before, b, base, n) { BarrenLosesNothing(fx, locs, before, cut, b, base, n); }
  }

  /** With every base known, what the search finds is known. */
  lemma {:induction false} FoundKnown(fx: Facts, s: Search, x: Rtx)
    requires AllKnown(fx)
    ensures Find(fx, s, x).0.Some? ==> KnownBase(Find(fx, s, x).0.value)
  {
    var n := FoundSound(fx, s.locs, s, x);
    if Find(fx, s, x).0.Some? {
      DerivedKnown(fx, s.locs, x, Find(fx, s, x).0.value, n);
    }
  }

  lemma {:induction false} DerivedKnown(fx: Facts, locs: Locs, x: Rtx, base: Rtx, n: nat)
    requires AllKnown(fx) && Derives(fx, locs, {}, x, base, n)
    ensures KnownBase(base)
    decreases n, x
  {
    match x
    case High(y) => DerivedKnown(fx, locs, y, base, n);
    case Modify(y) => DerivedKnown(fx, locs, y, base, n);
    case Truncate(y, _) => DerivedKnown(fx, locs, y, base, n);
    case Extend(y) =>
      var b :| Derives(fx, locs, {}, y, b, n) && base == Converted(fx, b);
      DerivedKnown(fx, locs, y, b, n);
    case LoSum(_, y) => DerivedKnown(fx, locs, y, base, n);
    case Const(Sum(a, b)) => DerivedKnown(fx, locs, if Derives(fx, locs, {}, b, base, n) then b else a, base, n);
    case Sum(a, b) => DerivedKnown(fx, locs, if Derives(fx, locs, {}, b, base, n) then b else a, base, n);
    case And(y, _) => DerivedKnown(fx, locs, y, base, n);
    case Value(id) =>
      if !fx.spBased(id) {
        var k :| 0 <= k < |At(locs, id)| && Derives(fx, locs, {}, At(locs, id)[k], base, n - 1);
        DerivedKnown(fx, locs, At(locs, id)[k], base, n - 1);
      }
    case _ =>
  }

  /** What a failed search leaves behind: more values cut, all of them without a base, and `x` without a base. */
  ghost predicate Exhausted(fx: Facts, start: Locs, before: set<ValueId>, cut: set<ValueId>, s: Search) {
    before <= cut && CutTo(start, cut, s.locs) && NotStack(fx, cut) && Barren(fx, start, before, cut)
  }

  /** A base of `x` is a base of something `x` is searched through. */
  lemma HasBaseInPart(fx: Facts, locs: Locs, cut: set<ValueId>, x: Rtx)
    requires HasBase(fx, locs, cut, x)
    ensures x.High? || x.Modify? || x.Truncate? || x.Extend? || x.And? ==> HasBase(fx, locs, cut, x.x)
    ensures x.LoSum? ==> HasBase(fx, locs, cut, x.y)
    ensures x.Const? ==> x.x.Sum? && HasBase(fx, locs, cut, x.x)
    ensures x.Sum? && ViaPic(fx, x.x, x.y) ==> HasBase(fx, locs, cut, x.y)
    ensures x.Sum? ==> HasBase(fx, locs, cut, x.x) || HasBase(fx, locs, cut, x.y)
    ensures x.Value? && !fx.spBased(x.id) ==>
              x.id !in cut && exists k :: 0 <= k < |At(locs, x.id)| && HasBase(fx, locs, cut, At(locs, x.id)[k])
  {
    var base, n: nat :| Derives(fx, locs, cut, x, base, n);
    match x
    case High(y) => assert Derives(fx, locs, cut, y, base, n);
    case Modify(y) => assert Derives(fx, locs, cut, y, base, n);
    case Truncate(y, _) => assert Derives(fx, locs, cut, y, base, n);
    case Extend(y) => var b :| Derives(fx, locs, cut, y, b, n) && base == Converted(fx, b);
    case LoSum(_, y) => assert Derives(fx, locs, cut, y, base, n);
    case And(y, _) => assert Derives(fx, locs, cut, y, base, n);
    case Sum(a, b) =>
      assert !Derives(fx, locs, cut, b, base, n) ==> !ViaPic(fx, a, b) && Derives(fx, locs, cut, a, base, n);
    case Const(Sum(a, b)) => assert Derives(fx, locs, cut, Sum(a, b), base, n);
    case Value(id) =>
      if !fx.spBased(id) {
        var k :| 0 <= k < |At(locs, id)| && Derives(fx, locs, cut, At(locs, id)[k], base, n - 1);
        assert HasBase(fx, locs, cut, At(locs, id)[k]);
      }
    case _ =>
  }

  lemma {:induction false} FindMisses(fx: Facts, start: Locs, reach: set<ValueId>, cut: set<ValueId>, s: Search, x: Rtx)
    returns (cut': set<ValueId>)
    requires CutTo(start, cut, s.locs) && NotStack(fx, cut)
    requires Undemanding(fx, start, reach) && StackConsistent(fx, start, reach) && Easy(fx, reach, x)
    ensures Find(fx, s, x).0.None? ==> Exhausted(fx, start, cut, cut', Find(fx, s, x).1) && !HasBase(fx, start, cut', x)
    decreases |Live(s.locs)|, 1, x
  {
    hide CutTo, NotStack, Undemanding, StackConsistent, AllKnown, HasBase, Barren;
    cut' := cut;
    match x {
      case High(y) => cut' := FindMisses(fx, start, reach, cut, s, y);
      case Modify(y) => cut' := FindMisses(fx, start, reach, cut, s, y);
      case Truncate(y, narrow) => if fx.onePointerMode && !narrow { cut' := FindMisses(fx, start, reach, cut, s, y); }
      case Extend(y) => if fx.onePointerMode { cut' := FindMisses(fx, start, reach, cut, s, y); }
      case LoSum(_, y) => cut' := FindMisses(fx, start, reach, cut, s, y);
      case Const(Sum(a, b)) => cut' := FindSumMisses(fx, start, reach, cut, s, a, b);
      case Sum(a, b) => cut' := FindSumMisses(fx, start, reach, cut, s, a, b);
      case And(y, ConstInt(v)) => if v != 0 { cut' := FindMisses(fx, start, reach, cut, s, y); }
      case Value(id) => cut' := FindValueMisses(fx, start, reach, cut, s, id);
      case _ =>
    }
    if Find(fx, s, x).0.None? {
      NothingCut(fx, start, cut);
      if HasBase(fx, start, cut', x) {
        HasBaseInPart(fx, start, cut', x);
        LeafBase(fx, start, cut', x);
      }
    }
  }

  lemma LeafBase(fx: Facts, locs: Locs, cut: set<ValueId>, x: Rtx)
    requires HasBase(fx, locs, cut, x)
    ensures x.Reg? ==> fx.regBase(x.n).Some?
    ensures x.Truncate? ==> fx.onePointerMode && !x.narrow
    ensures x.Extend? ==> fx.onePointerMode
    ensures x.And? ==> x.y.ConstInt? && x.y.v != 0
    ensures !x.Other? && !x.ConstInt? && !x.Address?
  {
  }

  lemma NothingCut(fx: Facts, start: Locs, cut: set<ValueId>)
    ensures Barren(fx, start, cut, cut)
  {
  }

  lemma {:induction false} FindSumMisses(fx: Facts, start: Locs, reach: set<ValueId>, cut: set<ValueId>, s: Search, a: Rtx, b: Rtx)
    returns (cut': set<ValueId>)
    requires CutTo(start, cut, s.locs) && NotStack(fx, cut)
    requires Undemanding(fx, start, reach) && StackConsistent(fx, start, reach) && AllKnown(fx) && Sum(a, b).Within(reach)
    ensures FindSum(fx, s, a, b).0.None? ==>
              Exhausted(fx, start, cut, cut', FindSum(fx, s, a, b).1) && !HasBase(fx, start, cut', Sum(a, b))
    decreases |Live(s.locs)|, 1, Sum(a, b), 0
  {
    hide CutTo, NotStack, Undemanding, StackConsistent, AllKnown, HasBase, Barren;
    if ViaPic(fx, a, b) {
      cut' := FindMisses(fx, start, reach, cut, s, b);
      if HasBase(fx, start, cut', Sum(a, b)) { HasBaseInPart(fx, start, cut', Sum(a, b)); }
    } else {
      var (first, second) := Ordered(fx, a, b);
      var mid := FindMisses(fx, start, reach, cut, s, first);
      FoundKnown(fx, s, first);
      var (base, s') := Find(fx, s, first);
      cut' := mid;
      if base.None? {
        TrimmedLive(s.locs, s'.locs);
        cut' := FindMisses(fx, start, reach, mid, s', second);
        FoundKnown(fx, s', second);
        if FindSum(fx, s, a, b).0.None? {
          BarrenMono(fx, start, cut, mid, cut');
          if HasBase(fx, start, cut', Sum(a, b)) {
            HasBaseInPart(fx, start, cut', Sum(a, b));
            if HasBase(fx, start, cut', first) { HasBaseMono(fx, start, mid, cut', first); }
          }
        }
      }
    }
  }

  lemma {:induction false} FindValueMisses(fx: Facts, start: Locs, reach: set<ValueId>, cut: set<ValueId>, s: Search, id: ValueId)
    returns (cut': set<ValueId>)
    requires CutTo(start, cut, s.locs) && NotStack(fx, cut)
    requires Undemanding(fx, start, reach) && StackConsistent(fx, start, reach) && id in reach
    ensures Find(fx, s, Value(id)).0.None? ==>
              Exhausted(fx, start, cut, cut', Find(fx, s, Value(id)).1) && !HasBase(fx, start, cut', Value(id))
    decreases |Live(s.locs)|, 1, Value(id), 0
  {
    hide NotStack, Undemanding, StackConsistent, AllKnown, HasBase, Barren;
    cut' := cut;
    if !fx.spBased(id) {
      var f := At(s.locs, id);
      if f == [] {
        NothingCut(fx, start, cut);
        if HasBase(fx, start, cut, Value(id)) { HasBaseInPart(fx, start, cut, Value(id)); }
      } else {
        CutLive(s.locs, id);
        var inner := Search(Cut(s.locs, id), s.visited + [(id, f)]);
        EnterCut(fx, start, cut, s.locs, id);
        cut' := FindListMisses(fx, start, reach, cut + {id}, inner, id, 0);
        assert f[0..] == f;
        if Find(fx, s, Value(id)).0.None? {
          LeaveCut(fx, start, cut, cut', id);
        }
      }
    }
  }

  lemma EnterCut(fx: Facts, start: Locs, cut: set<ValueId>, locs: Locs, id: ValueId)
    requires CutTo(start, cut, locs) && NotStack(fx, cut) && !fx.spBased(id) && At(locs, id) != []
    ensures CutTo(start, cut + {id}, Cut(locs, id)) && NotStack(fx, cut + {id})
    ensures At(start, id) == At(locs, id)
  {
  }

  lemma LeaveCut(fx: Facts, start: Locs, cut: set<ValueId>, cut': set<ValueId>, id: ValueId)
    requires cut + {id} <= cut' && Barren(fx, start, cut + {id}, cut') && !fx.spBased(id)
    requires forall k :: 0 <= k < |At(start, id)| ==> !HasBase(fx, start, cut', At(start, id)[k])
    ensures Barren(fx, start, cut, cut') && !HasBase(fx, start, cut', Value(id))
  {
    hide HasBase;
    if HasBase(fx, start, cut', Value(id)) { HasBaseInPart(fx, start, cut', Value(id)); }
  }

  /** The locations of value `id` from position `i` on. */
  lemma {:induction false} FindListMisses(fx: Facts, start: Locs, reach: set<ValueId>, cut: set<ValueId>, s: Search,
                                          id: ValueId, i: nat)
    returns (cut': set<ValueId>)
    requires CutTo(start, cut, s.locs) && NotStack(fx, cut) && id in cut && i <= |At(start, id)|
    requires Undemanding(fx, start, reach) && StackConsistent(fx, start, reach) && id in reach
    ensures var r := FindList(fx, s, Value(id), At(start, id)[i..]);
            r.0.None? ==>
              && Exhausted(fx, start, cut, cut', r.1)
              && forall k :: i <= k < |At(start, id)| ==> !HasBase(fx, start, cut', At(start, id)[k])
    decreases |Live(s.locs)|, 2, |At(start, id)| - i
  {
    hide NotStack, Undemanding, StackConsistent, AllKnown, HasBase, Barren, CutTo;
    var f := At(start, id);
    cut' := cut;
    NothingCut(fx, start, cut);
    if i == |f| {
    } else {
      assert f[i..][1..] == f[i + 1..];
      if LeadsBack(s.locs, f[i], Value(id)) {
        cut' := FindListMisses(fx, start, reach, cut, s, id, i + 1);
        if FindList(fx, s, Value(id), f[i..]).0.None? {
          BackIsBarren(fx, start, reach, cut, cut', s.locs, id, i);
        }
      } else {
        LocationEasy(fx, start, reach, id, i);
        var mid := FindMisses(fx, start, reach, cut, s, f[i]);
        var (base, s') := Find(fx, s, f[i]);
        if base.None? {
          TrimmedLive(s.locs, s'.locs);
          cut' := FindListMisses(fx, start, reach, mid, s', id, i + 1);
          if FindList(fx, s, Value(id), f[i..]).0.None? {
            BarrenMono(fx, start, cut, mid, cut');
            if HasBase(fx, start, cut', f[i]) { HasBaseMono(fx, start, mid, cut', f[i]); }
          }
        }
      }
    }
  }

  lemma LocationEasy(fx: Facts, start: Locs, reach: set<ValueId>, id: ValueId, i: nat)
    requires Undemanding(fx, start, reach) && id in reach && i < |At(start, id)|
    ensures Easy(fx, reach, At(start, id)[i])
  {
  }

  /** A location that leads back to a value that is cut has no base of its own. */
  lemma BackIsBarren(fx: Facts, start: Locs, reach: set<ValueId>, cut: set<ValueId>, cut': set<ValueId>, locs: Locs,
                     id: ValueId, i: nat)
    requires CutTo(start, cut, locs) && id in cut && cut <= cut' && NotStack(fx, cut)
    requires StackConsistent(fx, start, reach) && id in reach
    requires i < |At(start, id)| && LeadsBack(locs, At(start, id)[i], Value(id))
    ensures !HasBase(fx, start, cut', At(start, id)[i])
  {
    hide HasBase;
    var y := At(start, id)[i];
    assert At(start, y.id) == [Value(id)];
    assert !fx.spBased(y.id);
    if HasBase(fx, start, cut', y) {
      HasBaseInPart(fx, start, cut', y);
      HasBaseInPart(fx, start, cut', Value(id));
    }
  }

  /** The search is exact where no sum that it can come to turns a base down: it finds a base if and only if there is one. */
  lemma FoundExactly(fx: Facts, locs: Locs, reach: set<ValueId>, x: Rtx)
    requires Undemanding(fx, locs, reach) && StackConsistent(fx, locs, reach) && Easy(fx, reach, x)
    ensures Find(fx, Search(locs, []), x).0.Some? <==> HasBase(fx, locs, {}, x)
  {
    hide Undemanding, StackConsistent, Easy;
    var s := Search(locs, []);
    var n := FoundSound(fx, locs, s, x);
    var cut := FindMisses(fx, locs, reach, {}, s, x);
    if Find(fx, s, x).0.None? && HasBase(fx, locs, {}, x) {
      var base, m: nat :| Derives(fx, locs, {}, x, base, m);
      BarrenLosesNothing(fx, locs, {}, cut, x, base, m);
    }
  }

  const ARGUMENT := Address(0, true)

  /** Every register holds an argument. */
  function ArgumentFacts(): Facts {
    Facts((r: nat) => Some(ARGUMENT), (r: nat) => false, (id: ValueId) => false, Address(1, false), true, None, x => x)
  }

  /** Elsewhere it can miss one.  Value 1 is a sum with value 2, and also value 2 itself; the base of value 2 is an argument,
      which the sum turns down, and by then the locations of value 2 are gone. */
  lemma SumCanHideABase()
    ensures var locs: Locs := map[1 := [Sum(Value(2), Other), Value(2)], 2 := [Reg(0)]];
            && StackConsistent(ArgumentFacts(), locs, {1, 2})
            && Find(ArgumentFacts(), Search(locs, []), Value(1)).0.None?
            && HasBase(ArgumentFacts(), locs, {}, Value(1))
  {
    hide Derives, HasBase, Find, FindList;
    var fx := ArgumentFacts();
    var locs: Locs := map[1 := [Sum(Value(2), Other), Value(2)], 2 := [Reg(0)]];
    var s1 := Search(Cut(locs, 1), [(1, locs[1])]);
    var s2 := Search(Cut(s1.locs, 2), s1.visited + [(2, [Reg(0)])]);
    TurnedDown(fx, s1, s2);
    NothingThere(fx, s2);
    TwoLocations(fx, s1, s2, Value(1), Sum(Value(2), Other), Value(2));
    assert [] + [(1, locs[1])] == s1.visited;
    Entered(fx, locs, s1, [Sum(Value(2), Other), Value(2)]);
    HiddenBase(fx, locs);
  }

  lemma NothingThere(fx: Facts, s: Search)
    requires fx == ArgumentFacts() && At(s.locs, 2) == []
    ensures Find(fx, s, Value(2)) == (None, s)
  {
  }

  lemma Entered(fx: Facts, locs: Locs, s1: Search, f: seq<Rtx>)
    requires fx == ArgumentFacts() && At(locs, 1) == f != [] && s1 == Search(Cut(locs, 1), [] + [(1, f)])
    ensures Find(fx, Search(locs, []), Value(1)) == FindList(fx, s1, Value(1), f)
  {
  }

  lemma HiddenBase(fx: Facts, locs: Locs)
    requires fx == ArgumentFacts() && At(locs, 1) == [Sum(Value(2), Other), Value(2)] && At(locs, 2) == [Reg(0)]
    ensures HasBase(fx, locs, {}, Value(1))
  {
    assert Derives(fx, locs, {}, At(locs, 2)[0], ARGUMENT, 0);
    assert Derives(fx, locs, {}, At(locs, 1)[1], ARGUMENT, 1);
    assert Derives(fx, locs, {}, Value(1), ARGUMENT, 2);
  }

  lemma TurnedDown(fx: Facts, s: Search, t: Search)
    requires fx == ArgumentFacts() && At(s.locs, 2) == [Reg(0)]
    requires t == Search(Cut(s.locs, 2), s.visited + [(2, [Reg(0)])])
    ensures Find(fx, s, Sum(Value(2), Other)) == (None, t)
  {
    assert FindList(fx, t, Value(2), [Reg(0)]) == (Some(ARGUMENT), t);
    assert Find(fx, s, Value(2)) == (Some(ARGUMENT), t);
    assert FindSum(fx, s, Value(2), Other) == (None, t);
  }

  lemma TwoLocations(fx: Facts, s: Search, t: Search, x: Rtx, first: Rtx, second: Rtx)
    requires first.Sum? && Find(fx, s, first) == (None, t) && Find(fx, t, second) == (None, t)
    ensures FindList(fx, s, x, [first, second]).0 == None
  {
    assert [first, second][1..] == [second];
    assert [second][1..] == [];
    assert FindList(fx, t, x, []).0 == None;
    assert FindList(fx, t, x, [second]).0 == None;
  }

  /** It can also miss the stack pointer: `b` is based on it and is the only location of `a`, but is passed over because its
      own only location is `a`. */
  lemma StackBasePassedOver(fx: Facts, locs: Locs, a: ValueId, b: ValueId)
    requires fx.spBased(b) && !fx.spBased(a) && At(locs, a) == [Value(b)] && At(locs, b) == [Value(a)]
    ensures Find(fx, Search(locs, []), Value(a)).0.None? && HasBase(fx, locs, {}, Value(a)) && !StackConsistent(fx, locs, {a, b})
  {
    var s := Search(Cut(locs, a), [] + [(a, [Value(b)])]);
    assert LeadsBack(s.locs, Value(b), Value(a));
    assert FindList(fx, s, Value(a), [Value(b)]) == FindList(fx, s, Value(a), []);
    assert Derives(fx, locs, {}, At(locs, a)[0], fx.spBase, 0);
    assert Derives(fx, locs, {}, Value(a), fx.spBase, 1);
    assert At(locs, a)[0] == Value(b);
  }

  // ----- In place -----

  lemma ValueUnfold(fx: Facts, s: Search, id: ValueId)
    requires !fx.spBased(id)
    ensures var f := At(s.locs, id);
            Find(fx, s, Value(id)) ==
            if f == [] then (None, s) else FindList(fx, Search(Cut(s.locs, id), s.visited + [(id, f)]), Value(id), f)
  {
  }

  lemma ListUnfold(fx: Facts, s: Search, x: Rtx, f: seq<Rtx>, l: nat)
    requires l < |f|
    ensures var (base, s') := Find(fx, s, f[l]);
            && Trimmed(s.locs, s'.locs)
            && FindList(fx, s, x, f[l..]) ==
               if LeadsBack(s.locs, f[l], x) then FindList(fx, s, x, f[l + 1..])
               else if base.Some? then (base, s')
               else FindList(fx, s', x, f[l + 1..])
  {
    assert f[l..][1..] == f[l + 1..];
  }

  lemma ListEnd(fx: Facts, s: Search, x: Rtx, f: seq<Rtx>)
    ensures FindList(fx, s, x, f[|f|..]) == (None, s)
  {
  }

  /** The table of values; the search cuts the lists in the table itself. */
  class ValueTable {
    var locs: Locs

    constructor (locs: Locs)
      ensures this.locs == locs
    {
      this.locs := locs;
    }

    method FindIn(fx: Facts, x: Rtx, visited: seq<(ValueId, seq<Rtx>)>)
      returns (base: Option<Rtx>, visited': seq<(ValueId, seq<Rtx>)>)
      modifies this
      ensures (base, Search(locs, visited')) == Find(fx, Search(old(locs), visited), x)
      decreases |Live(locs)|, 1, x
    {
      match x {
        case Reg(n) => return fx.regBase(n), visited;
        case Symbol(_) => return Some(x), visited;
        case Label(_) => return Some(x), visited;
        case High(y) => base, visited' := FindIn(fx, y, visited);
        case Modify(y) => base, visited' := FindIn(fx, y, visited);
        case Truncate(y, narrow) =>
          if !fx.onePointerMode || narrow { return None, visited; }
          base, visited' := FindIn(fx, y, visited);
        case Extend(y) =>
          if !fx.onePointerMode { return None, visited; }
          base, visited' := FindIn(fx, y, visited);
          if base.Some? && base.value.IsConstant() { base := Some(fx.convert(base.value)); }
        case LoSum(_, y) => base, visited' := FindIn(fx, y, visited);
        case Const(Sum(a, b)) => base, visited' := FindInSum(fx, a, b, visited);
        case Sum(a, b) => base, visited' := FindInSum(fx, a, b, visited);
        case And(y, ConstInt(v)) =>
          if v == 0 { return None, visited; }
          base, visited' := FindIn(fx, y, visited);
        case Value(id) =>
          if fx.spBased(id) { return Some(fx.spBase), visited; }
          base, visited' := FindInValue(fx, id, visited);
        case _ => return None, visited;
      }
    }

    method FindInSum(fx: Facts, a: Rtx, b: Rtx, visited: seq<(ValueId, seq<Rtx>)>)
      returns (base: Option<Rtx>, visited': seq<(ValueId, seq<Rtx>)>)
      modifies this
      ensures (base, Search(locs, visited')) == FindSum(fx, Search(old(locs), visited), a, b)
      decreases |Live(locs)|, 1, Sum(a, b), 0
    {
      if ViaPic(fx, a, b) {
        base, visited' := FindIn(fx, b, visited);
        return;
      }
      var first, second := a, b;
      if IsPointerReg(fx, first) {
      } else if IsPointerReg(fx, second) {
        first, second := second, first;
      } else if second.IsConstant() && !second.ConstInt? {
        first, second := second, first;
      }
      base, visited' := FindIn(fx, first, visited);
      if Accepted(fx, first, base) { return; }
      TrimmedLive(old(locs), locs);
      base, visited' := FindIn(fx, second, visited');
      if !Accepted(fx, second, base) { base := None; }
    }

    method FindInValue(fx: Facts, id: ValueId, visited: seq<(ValueId, seq<Rtx>)>)
      returns (base: Option<Rtx>, visited': seq<(ValueId, seq<Rtx>)>)
      requires !fx.spBased(id)
      modifies this
      ensures (base, Search(locs, visited')) == Find(fx, Search(old(locs), visited), Value(id))
      decreases |Live(locs)|, 1, Value(id), 0
    {
      hide Find, FindList, Live, Cut;
      var f := At(locs, id);
      base, visited' := None, visited;
      ValueUnfold(fx, Search(locs, visited), id);
      if f == [] { return; }
      visited' := visited + [(id, f)];
      CutLive(locs, id);
      locs := Cut(locs, id);
      ghost var size := |Live(locs)|;
      ghost var entered := Search(locs, visited');
      var l := 0;
      while l < |f|
        invariant l <= |f| && |Live(locs)| <= size
        invariant FindList(fx, entered, Value(id), f) == FindList(fx, Search(locs, visited'), Value(id), f[l..])
        invariant base.None?
      {
        ListUnfold(fx, Search(locs, visited'), Value(id), f, l);
        if !LeadsBack(locs, f[l], Value(id)) {
          ghost var before := locs;
          base, visited' := FindIn(fx, f[l], visited');
          if base.Some? { return; }
          TrimmedLive(before, locs);
        }
        l := l + 1;
      }
      ListEnd(fx, Search(locs, visited'), Value(id), f);
    }

    /** Finds the base term of `x` and leaves the table as it was. */
    method FindBaseTerm(fx: Facts, x: Rtx) returns (base: Option<Rtx>)
      modifies this
      ensures locs == old(locs)
      ensures base == Find(fx, Search(locs, []), x).0
      ensures base.Some? ==> exists n: nat :: Derives(fx, locs, {}, x, base.value, n)
      ensures forall reach :: Undemanding(fx, locs, reach) && StackConsistent(fx, locs, reach) && Easy(fx, reach, x) ==>
                (base.Some? <==> HasBase(fx, locs, {}, x))
    {
      var visited;
      base, visited := FindIn(fx, x, []);
      SearchUndone(fx, old(locs), x);
      var i := 0;
      while i < |visited|
        invariant i <= |visited|
        invariant Restore(locs, visited[i..]) == old(locs)
      {
        assert visited[i..][1..] == visited[i + 1..];
        locs := locs[visited[i].0 := visited[i].1];
        i := i + 1;
      }
      ghost var n := FoundSound(fx, old(locs), Search(old(locs), []), x);
      forall reach | Undemanding(fx, locs, reach) && StackConsistent(fx, locs, reach) && Easy(fx, reach, x)
        ensures base.Some? <==> HasBase(fx, locs, {}, x)
      {
        FoundExactly(fx, locs, reach, x);
      }
    }
  }
}
