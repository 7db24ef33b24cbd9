/** Which base the search for a base term returns where several can be derived. */
module BaseTermChoice {
  import opened Options
  import opened BaseTerm
  import opened BaseTermExact

  // ----- Sums -----

  /** A register that is known to hold a pointer and has a base. */
  predicate PointerWithBase(fx: Facts, x: Rtx) {
    x.Reg? && fx.isPointer(x.n) && fx.regBase(x.n).Some?
  }

  predicate PointerRegister(fx: Facts, x: Rtx) {
    x.Reg? && fx.isPointer(x.n)
  }

  /** A constant relative to the PIC register. */
  predicate PicRelative(fx: Facts, a: Rtx, b: Rtx) {
    a.Reg? && fx.pic.Some? && a.n == fx.pic.value && (b.Symbol? || b.Label? || b.Const? || b.ConstInt? || b.High?)
  }

  lemma Leaf(fx: Facts, s: Search, x: Rtx)
    ensures x.Reg? ==> Find(fx, s, x) == (fx.regBase(x.n), s)
    ensures x.Symbol? || x.Label? ==> Find(fx, s, x) == (Some(x), s)
  {
  }

  /** The search of a sum, outside the PIC case. */
  lemma SumSearched(fx: Facts, s: Search, a: Rtx, b: Rtx)
    requires !PicRelative(fx, a, b)
    ensures var (first, second) := Ordered(fx, a, b);
            var (base, s') := Find(fx, s, first);
            if Accepted(fx, first, base) then Find(fx, s, Sum(a, b)) == (base, s')
            else
              var (base', s'') := Find(fx, s', second);
              Find(fx, s, Sum(a, b)) == (if Accepted(fx, second, base') then base' else None, s'')
  {
  }

  /** Relative to the PIC register the base is that of the constant. */
  lemma PicBase(fx: Facts, s: Search, a: Rtx, b: Rtx)
    requires PicRelative(fx, a, b)
    ensures Find(fx, s, Sum(a, b)) == Find(fx, s, b) && Find(fx, s, Const(Sum(a, b))) == Find(fx, s, b)
  {
  }

  /** An operand that is a pointer register with a base gives the sum its base, the first if both are, whatever bases the other
      operand leads to. */
  lemma PointerWins(fx: Facts, s: Search, a: Rtx, b: Rtx)
    requires !PicRelative(fx, a, b)
    ensures PointerWithBase(fx, a) ==> Find(fx, s, Sum(a, b)) == (fx.regBase(a.n), s)
    ensures !PointerWithBase(fx, a) && PointerWithBase(fx, b) ==> Find(fx, s, Sum(a, b)) == (fx.regBase(b.n), s)
  {
    hide Find;
    SumSearched(fx, s, a, b);
    Leaf(fx, s, a);
    Leaf(fx, s, b);
  }

  /** Without one, a symbol or label as second operand is the base. */
  lemma SymbolWins(fx: Facts, s: Search, a: Rtx, b: Rtx)
    requires (b.Symbol? || b.Label?) && (PicRelative(fx, a, b) || !PointerWithBase(fx, a))
    ensures Find(fx, s, Sum(a, b)) == (Some(b), s)
  {
    hide Find;
    Leaf(fx, s, a);
    Leaf(fx, s, b);
    if PicRelative(fx, a, b) {
      PicBase(fx, s, a, b);
    } else {
      SumSearched(fx, s, a, b);
    }
  }

  /** A named object or a special address other than an argument. */
  predicate Named(x: Rtx) {
    x.Symbol? || x.Label? || (x.Address? && !x.argument)
  }

  /** Without a pointer register the operands are searched in turn, a constant second operand first; the base is the first that
      is named. */
  lemma NamedWins(fx: Facts, s: Search, a: Rtx, b: Rtx)
    requires !PicRelative(fx, a, b) && !PointerRegister(fx, a) && !PointerRegister(fx, b)
    ensures var constant := b.Symbol? || b.Label? || b.Const? || b.High?;
            var (first, second) := if constant then (b, a) else (a, b);
            var (base, s') := Find(fx, s, first);
            if base.Some? && Named(base.value) then Find(fx, s, Sum(a, b)) == (base, s')
            else
              var (base', s'') := Find(fx, s', second);
              Find(fx, s, Sum(a, b)) == (if base'.Some? && Named(base'.value) then base' else None, s'')
  {
    hide Find;
    SumSearched(fx, s, a, b);
  }

  /** A base that is not named, and does not come from a pointer register, is turned down. */
  lemma SumTurnsDown(fx: Facts, s: Search, a: Rtx, b: Rtx)
    requires !PicRelative(fx, a, b) && Find(fx, s, Sum(a, b)).0.Some?
    ensures var base := Find(fx, s, Sum(a, b)).0.value;
            || Named(base)
            || (PointerWithBase(fx, a) && fx.regBase(a.n) == Some(base))
            || (PointerWithBase(fx, b) && fx.regBase(b.n) == Some(base))
  {
    hide Find;
    SumSearched(fx, s, a, b);
    Leaf(fx, s, a);
    Leaf(fx, s, b);
    var s' := Find(fx, s, Ordered(fx, a, b).0).1;
    Leaf(fx, s', a);
    Leaf(fx, s', b);
  }

  /** A sum inside a constant is treated as the sum; any other constant has no base. */
  lemma InsideConstant(fx: Facts, s: Search, x: Rtx)
    ensures Find(fx, s, Const(x)) == if x.Sum? then Find(fx, s, x) else (None, s)
  {
  }

  /** The two operands of a sum of plain registers without a value in between, all cases at once: a pointer with a base wins, the
      first before the second; else a named base, the first before the second; else there is none. */
  lemma RegisterSum(fx: Facts, s: Search, m: nat, n: nat)
    ensures Find(fx, s, Sum(Reg(m), Reg(n))).0 ==
            if PointerWithBase(fx, Reg(m)) then fx.regBase(m)
            else if PointerWithBase(fx, Reg(n)) then fx.regBase(n)
            else if fx.regBase(m).Some? && Named(fx.regBase(m).value) then fx.regBase(m)
            else if fx.regBase(n).Some? && Named(fx.regBase(n).value) then fx.regBase(n)
            else None
  {
    hide Find;
    SumSearched(fx, s, Reg(m), Reg(n));
    Leaf(fx, s, Reg(m));
    Leaf(fx, s, Reg(n));
  }

  // ----- Conversions -----

  /** A converted address keeps its base; one that is constant is converted too. */
  lemma ExtendedBase(fx: Facts, s: Search, y: Rtx)
    requires fx.onePointerMode
    ensures var (base, s') := Find(fx, s, y);
            Find(fx, s, Extend(y)) ==
            (match base
             case None => None
             case Some(b) =>
               Some(if b.Symbol? || b.Label? || b.Const? || b.ConstInt? || b.High? then fx.convert(b) else b), s')
  {
  }

  // ----- Values -----

  /** What is found in a list of locations comes from one of them, and none before it has a base. */
  lemma {:induction false} FirstInList(fx: Facts, start: Locs, reach: set<ValueId>, cut: set<ValueId>, s: Search, id: ValueId, i: nat)
    returns (k: nat, n: nat, cut': set<ValueId>)
    requires CutTo(start, cut, s.locs) && NotStack(fx, cut) && id in cut && i <= |At(start, id)| && Trimmed(start, s.locs)
    requires Undemanding(fx, start, reach) && StackConsistent(fx, start, reach) && id in reach
    requires FindList(fx, s, Value(id), At(start, id)[i..]).0.Some?
    ensures i <= k < |At(start, id)| && cut <= cut' && Barren(fx, start, cut, cut')
    ensures Derives(fx, start, {}, At(start, id)[k], FindList(fx, s, Value(id), At(start, id)[i..]).0.value, n)
    ensures forall j :: i <= j < k ==> !HasBase(fx, start, cut', At(start, id)[j])
    decreases |At(start, id)| - i
  {
    hide NotStack, Undemanding, StackConsistent, AllKnown, HasBase, Barren, CutTo, Trimmed;
    var f := At(start, id);
    assert i < |f| && f[i..][1..] == f[i + 1..];
    if LeadsBack(s.locs, f[i], Value(id)) {
      k, n, cut' := FirstInList(fx, start, reach, cut, s, id, i + 1);
      BackIsBarren(fx, start, reach, cut, cut', s.locs, id, i);
    } else {
      LocationEasy(fx, start, reach, id, i);
      var mid := FindMisses(fx, start, reach, cut, s, f[i]);
      var (base, s') := Find(fx, s, f[i]);
      if base.Some? {
        k, cut' := i, cut;
        n := FoundSound(fx, start, s, f[i]);
        NothingCut(fx, start, cut);
      } else {
        TrimmedTrans(start, s.locs, s'.locs);
        k, n, cut' := FirstInList(fx, start, reach, mid, s', id, i + 1);
        BarrenMono(fx, start, cut, mid, cut');
        if HasBase(fx, start, cut', f[i]) { HasBaseMono(fx, start, mid, cut', f[i]); }
      }
    }
  }

  /** Under the conditions of FoundExactly the base of a value is that of the first of its locations with a base that does not
      come from the value itself. */
  lemma FirstLocationWins(fx: Facts, locs: Locs, reach: set<ValueId>, id: ValueId) returns (k: nat, n: nat)
    requires Undemanding(fx, locs, reach) && StackConsistent(fx, locs, reach) && id in reach && !fx.spBased(id)
    requires Find(fx, Search(locs, []), Value(id)).0.Some?
    ensures k < |At(locs, id)| && Derives(fx, locs, {}, At(locs, id)[k], Find(fx, Search(locs, []), Value(id)).0.value, n)
    ensures forall j :: 0 <= j < k ==> !HasBase(fx, locs, {id}, At(locs, id)[j])
  {
    hide Undemanding, StackConsistent, HasBase, Barren, Derives;
    var f := At(locs, id);
    var inner := Search(Cut(locs, id), [] + [(id, f)]);
    assert f[0..] == f;
    assert CutTo(locs, {id}, inner.locs) && NotStack(fx, {id});
    CutLive(locs, id);
    var cut;
    k, n, cut := FirstInList(fx, locs, reach, {id}, inner, id, 0);
    forall j | 0 <= j < k ensures !HasBase(fx, locs, {id}, f[j]) {
      if HasBase(fx, locs, {id}, f[j]) {
        KeepsBase(fx, locs, {id}, cut, f[j]);
      }
    }
  }

  lemma KeepsBase(fx: Facts, locs: Locs, before: set<ValueId>, cut: set<ValueId>, x: Rtx)
    requires before <= cut && Barren(fx, locs, before, cut) && HasBase(fx, locs, before, x)
    ensures HasBase(fx, locs, cut, x)
  {
    var base, m: nat :| Derives(fx, locs, before, x, base, m);
    BarrenLosesNothing(fx, locs, before, cut, x, base, m);
  }

  /** A value based on the stack pointer has that base, whatever its locations are. */
  lemma StackValue(fx: Facts, s: Search, id: ValueId)
    requires fx.spBased(id)
    ensures Find(fx, s, Value(id)) == (Some(fx.spBase), s)
  {
  }
}
