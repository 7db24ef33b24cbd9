/** The byte map a function's prologue makes: what the granules of each gap hold, stated without the order they are emitted in. */
module AsanPoison {
  import opened Options
  import opened AsanBuffer
  import opened AsanFrame

  /** The shadow byte of granule `x` of the gap `m`: the bytes in use if the variable below ends inside it, else the mark of the
      right red zone for the highest gap, of the left one for the lowest, and of a middle one for the others. */
  function Wanted(offsets: seq<int>, m: nat, x: int): int
    requires m + 2 <= |offsets|
  {
    if x < offsets[m + 1] then offsets[m + 1] - x else if m == 0 then 0xf3 else if m + 2 == |offsets| then 0xf1 else 0xf2
  }

  /** `e` is a granule of the gap `m`, with the byte wanted there. */
  ghost predicate WantedIn(offsets: seq<int>, m: nat, e: Item)
    requires m + 2 <= |offsets|
  {
    e.offset % 8 == 0 && Inside(offsets, m, e.offset) && e.value == Wanted(offsets, m, e.offset)
  }

  ghost predicate WantedAbove(offsets: seq<int>, l: nat, e: Item) {
    exists m :: l <= m < |offsets| - 1 && m % 2 == 0 && WantedIn(offsets, m, e)
  }

  // ----- One gap -----

  /** Where a gap starts: on a granule, with the end of the variable below it in that granule. */
  lemma GapStart(base: int, lo: int)
    requires base <= lo && base % 8 == 0
    ensures var first := base + Down8(lo - base);
            first % 8 == 0 && first <= lo < first + 8
  {
  }

  lemma GapHasOnly(base: int, lo: int, hi: int, magic: Byte, i: nat)
    requires base <= lo <= hi && (hi - base) % 16 == 0 && magic != 0 && base % 8 == 0 && i < |GapItems(base, lo, hi, magic)|
    ensures var e := GapItems(base, lo, hi, magic)[i];
            && e.offset % 8 == 0 && base + Down8(lo - base) <= e.offset < hi
            && e.value == if e.offset < lo then lo - e.offset else magic
  {
    hide GapItems, Down8;
    GapStart(base, lo);
    GapConsecutive(base, lo, hi, magic);
    GapItemAt(base, lo, hi, magic, i);
    SumOfEights(base + Down8(lo - base), 8 * i);
  }

  lemma GapHasAll(base: int, lo: int, hi: int, magic: Byte, x: int) returns (i: nat)
    requires base <= lo <= hi && (hi - base) % 16 == 0 && magic != 0 && base % 8 == 0
    requires x % 8 == 0 && base + Down8(lo - base) <= x < hi
    ensures i < |GapItems(base, lo, hi, magic)| && GapItems(base, lo, hi, magic)[i].offset == x
  {
    hide GapItems, Down8;
    var first := base + Down8(lo - base);
    GapStart(base, lo);
    GapConsecutive(base, lo, hi, magic);
    i := EighthsBetween(first, x);
    GapItemAt(base, lo, hi, magic, i);
  }

  lemma EighthsBetween(first: int, x: int) returns (i: nat)
    requires first % 8 == 0 && x % 8 == 0 && first <= x
    ensures x == first + 8 * i
  {
    i := (x - first) / 8;
  }

  lemma GapHolds(base: int, lo: int, hi: int, magic: Byte, e: Item)
    requires base <= lo <= hi && (hi - base) % 16 == 0 && magic != 0 && base % 8 == 0
    ensures e in GapItems(base, lo, hi, magic) <==>
            && e.offset % 8 == 0 && base + Down8(lo - base) <= e.offset < hi
            && e.value == if e.offset < lo then lo - e.offset else magic
  {
    hide GapItems, Down8;
    var gap, first := GapItems(base, lo, hi, magic), base + Down8(lo - base);
    if e in gap {
      var i :| 0 <= i < |gap| && gap[i] == e;
      GapHasOnly(base, lo, hi, magic, i);
    }
    if e.offset % 8 == 0 && first <= e.offset < hi {
      var i := GapHasAll(base, lo, hi, magic, e.offset);
      GapHasOnly(base, lo, hi, magic, i);
    }
  }

  lemma GapWanted(offsets: seq<int>, l: nat, e: Item)
    requires Layout(offsets) && l + 2 <= |offsets| && l % 2 == 0
    ensures e in GapItems(Base(offsets), offsets[l + 1], offsets[l], Magic(|offsets|, l + 2)) <==> WantedIn(offsets, l, e)
  {
    hide GapItems, Down8;
    GapOf(offsets, l);
    GapHolds(Base(offsets), offsets[l + 1], offsets[l], Magic(|offsets|, l + 2), e);
  }

  // ----- All gaps -----

  /** The prologue asks for every granule of every gap with the byte wanted there, and for nothing else. */
  lemma {:induction false} EmittedExactly(offsets: seq<int>, l: nat, e: Item)
    requires Layout(offsets) && l <= |offsets| && l % 2 == 0
    ensures e in Emitted(offsets, l) <==> WantedAbove(offsets, l, e)
    decreases |offsets| - l
  {
    hide GapItems, WantedIn, Layout;
    LayoutBasics(offsets);
    if l == |offsets| {
    } else {
      EmittedExactly(offsets, l + 2, e);
      GapWanted(offsets, l, e);
      if WantedAbove(offsets, l, e) && !WantedIn(offsets, l, e) {
        assert WantedAbove(offsets, l + 2, e);
      }
    }
  }

  ghost predicate InNoGap(offsets: seq<int>, x: int)
    requires |offsets| >= 2
  {
    forall m :: 0 <= m < |offsets| - 1 && m % 2 == 0 ==> !Inside(offsets, m, x)
  }

  /** What the shadow of granule `x` should be: the byte wanted by the gap it is in, and no mark if it is in none. */
  ghost predicate Poisoned(offsets: seq<int>, x: int, r: Option<Byte>)
    requires |offsets| >= 2
  {
    && (forall m :: 0 <= m < |offsets| - 1 && m % 2 == 0 && Inside(offsets, m, x) ==> r.Some? && r.value == Wanted(offsets, m, x))
    && (InNoGap(offsets, x) ==> r == None || r == Some(0))
  }

  /** The item asked for at granule `x` of the gap `m`. */
  lemma WantedItem(offsets: seq<int>, m: nat, x: int) returns (i: nat)
    requires Layout(offsets) && m < |offsets| - 1 && m % 2 == 0 && x % 8 == 0 && Inside(offsets, m, x)
    ensures var items := Emitted(offsets, 0);
            i < |items| && items[i].offset == x && items[i].value == Wanted(offsets, m, x)
  {
    hide Emitted, Layout;
    LayoutBasics(offsets);
    assert 0 <= Wanted(offsets, m, x) < 256;
    var e := Item(x, Wanted(offsets, m, x));
    assert WantedIn(offsets, m, e);
    EmittedExactly(offsets, 0, e);
    i :| 0 <= i < |Emitted(offsets, 0)| && Emitted(offsets, 0)[i] == e;
  }

  /** The gap an item asked for belongs to. */
  lemma ItemWanted(offsets: seq<int>, i: nat) returns (m: nat)
    requires Layout(offsets) && i < |Emitted(offsets, 0)|
    ensures m < |offsets| - 1 && m % 2 == 0 && WantedIn(offsets, m, Emitted(offsets, 0)[i])
  {
    hide Emitted, Layout, WantedIn;
    LayoutBasics(offsets);
    EmittedExactly(offsets, 0, Emitted(offsets, 0)[i]);
    m :| 0 <= m < |offsets| - 1 && m % 2 == 0 && WantedIn(offsets, m, Emitted(offsets, 0)[i]);
  }

  lemma PositionBack(offsets: seq<int>, i: nat)
    requires Layout(offsets) && i < |Emitted(offsets, 0)|
    ensures Emitted(offsets, 0)[i].offset == Base(offsets) + 8 * At(Base(offsets), Emitted(offsets, 0), i)
  {
    hide Emitted, Layout, InGap;
    LayoutBasics(offsets);
    EmittedAsked(offsets, 0);
    IndexBack(Base(offsets), Emitted(offsets, 0)[i].offset);
  }

  lemma RightIsPoisoned(offsets: seq<int>, a: int, x: int, r: Option<Byte>)
    requires Layout(offsets) && x == Base(offsets) + 8 * a && Right(Base(offsets), Emitted(offsets, 0), a, r)
    ensures Poisoned(offsets, x, r)
  {
    hide Emitted, Layout, Inside, Wanted, At;
    LayoutBasics(offsets);
    var items := Emitted(offsets, 0);
    assert x % 8 == 0 by { BaseAligned(offsets); }
    forall m | 0 <= m < |offsets| - 1 && m % 2 == 0 && Inside(offsets, m, x) ensures r.Some? && r.value == Wanted(offsets, m, x) {
      var i := WantedItem(offsets, m, x);
      PositionBack(offsets, i);
      assert At(Base(offsets), items, i) == a;
    }
    if InNoGap(offsets, x) {
      forall i | 0 <= i < |items| ensures At(Base(offsets), items, i) != a {
        var m := ItemWanted(offsets, i);
        PositionBack(offsets, i);
      }
    }
  }

  lemma BaseAligned(offsets: seq<int>)
    requires Layout(offsets)
    ensures Base(offsets) % 8 == 0
  {
  }

  lemma PoisonedIsRight(offsets: seq<int>, a: int, x: int, r: Option<Byte>)
    requires Layout(offsets) && x == Base(offsets) + 8 * a
    requires Around(Base(offsets), Emitted(offsets, 0), a, r) && Poisoned(offsets, x, r)
    ensures Right(Base(offsets), Emitted(offsets, 0), a, r)
  {
    hide Emitted, Layout, Inside, Wanted, At;
    LayoutBasics(offsets);
    var items := Emitted(offsets, 0);
    forall i | 0 <= i < |items| && At(Base(offsets), items, i) == a ensures r == Some(items[i].value) {
      var m := ItemWanted(offsets, i);
      PositionBack(offsets, i);
      assert items[i].offset == x && Inside(offsets, m, x);
    }
  }

  /** After the prologue every granule of every gap holds its mark, or the bytes in use of the variable that ends in it, and no
      other granule is marked, if and only if no variable that starts in the middle of a red zone fills one granule but not
      two. */
  lemma PrologueShadow(big: bool, offsets: seq<int>)
    requires Layout(offsets) && Gapped(offsets)
    ensures Increasing(Base(offsets), Emitted(offsets, 0))
    ensures (forall a :: Poisoned(offsets, Base(offsets) + 8 * a, View(big, Run(big, Base(offsets), Emitted(offsets, 0)), a))) <==>
            NoneTight(offsets, 0)
  {
    hide Emitted, Layout, Poisoned, NoneTight, View, Run, Right, Around, Increasing;
    LayoutBasics(offsets);
    PrologueExact(big, offsets);
    var base, items := Base(offsets), Emitted(offsets, 0);
    var b := Run(big, base, items);
    forall a ensures Right(base, items, a, View(big, b, a)) <==> Poisoned(offsets, base + 8 * a, View(big, b, a)) {
      var x, r := base + 8 * a, View(big, b, a);
      RunLeaves(big, base, items, a);
      if Right(base, items, a, r) { RightIsPoisoned(offsets, a, x, r); }
      if Poisoned(offsets, x, r) { PoisonedIsRight(offsets, a, x, r); }
    }
  }
}
