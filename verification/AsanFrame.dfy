/** The shadow of a stack frame: what the prologue asks for, and when its stores make exactly that. */
module AsanFrame {
  import opened AsanBuffer

  const LEFT: Byte := 0xf1
  const MIDDLE: Byte := 0xf2
  const RIGHT: Byte := 0xf3

  /** Frame offsets from the top of the frame down: the end of the frame, then the end and the start of each variable, and last
      the base.  The gap `l` runs from `offsets[l - 1]` up to `offsets[l - 2]`; the variable above it ends at
      `offsets[l - 3]`.  Variables start, and the frame ends, at multiples of 16 from the base. */
  ghost predicate Layout(offsets: seq<int>) {
    && |offsets| % 2 == 0 && |offsets| >= 2
    && (forall i, j :: 0 <= i <= j < |offsets| ==> offsets[j] <= offsets[i])
    && offsets[|offsets| - 1] % 8 == 0
    && (forall i {:trigger Aligned(offsets, i)} :: 0 <= i < |offsets| && i % 2 == 0 ==> Aligned(offsets, i))
  }

  ghost predicate Aligned(offsets: seq<int>, i: int)
    requires 0 <= i < |offsets|
  {
    (offsets[i] - offsets[|offsets| - 1]) % 16 == 0
  }

  lemma LayoutBasics(offsets: seq<int>)
    requires Layout(offsets)
    ensures |offsets| >= 2 && |offsets| % 2 == 0 && Base(offsets) <= offsets[0]
  {
  }

  function Base(offsets: seq<int>): int
    requires |offsets| >= 2
  {
    offsets[|offsets| - 1]
  }

  // Rounding down to a granule, to the smallest red zone and to a red zone, and up to a red zone.

  function Down8(x: int): int { x - x % 8 }
  function Down16(x: int): int { x - x % 16 }
  function Down32(x: int): int { x - x % 32 }
  function Up32(x: int): int { Down32(x + 31) }

  // ----- The prologue -----

  function Magic(length: nat, l: nat): Byte {
    if l == 2 then RIGHT else if l == length then LEFT else MIDDLE
  }

  function Fill(lo: int, hi: int, magic: Byte): seq<Item>
    decreases hi - lo
  {
    if lo < hi then [Item(lo, magic)] + Fill(lo + 8, hi, magic) else []
  }

  /** The shadow bytes of one gap: how much of the last granule of the variable below is in use, then the marks. */
  function GapItems(base: int, lo: int, hi: int, magic: Byte): seq<Item> {
    var aoff := base + Down8(lo - base);
    if lo != aoff then [Item(aoff, lo - aoff)] + Fill(aoff + 8, hi, magic) else Fill(lo, hi, magic)
  }

  /** The shadow bytes of the gaps above `l`. */
  function Emitted(offsets: seq<int>, l: nat): seq<Item>
    requires |offsets| >= 2 && |offsets| % 2 == 0 && l <= |offsets| && l % 2 == 0
    decreases |offsets| - l
  {
    if l == |offsets| then []
    else Emitted(offsets, l + 2) + GapItems(Base(offsets), offsets[l + 1], offsets[l], Magic(|offsets|, l + 2))
  }

  /** Consecutive granules lo `first` up to `to`, none of them zero. */
  ghost predicate Consecutive(items: seq<Item>, first: int, hi: int) {
    && first + 8 * |items| == hi
    && forall i :: 0 <= i < |items| ==> items[i].offset == first + 8 * i && items[i].value != 0
  }

  lemma {:induction false} FillConsecutive(lo: int, hi: int, magic: Byte)
    requires lo <= hi && (hi - lo) % 8 == 0 && magic != 0
    ensures Consecutive(Fill(lo, hi, magic), lo, hi)
    decreases hi - lo
  {
    if lo == hi {
    } else {
      FillConsecutive(lo + 8, hi, magic);
      ConsecutiveCons(Item(lo, magic), Fill(lo + 8, hi, magic), hi);
    }
  }

  lemma ConsecutiveCons(e: Item, rest: seq<Item>, hi: int)
    requires Consecutive(rest, e.offset + 8, hi) && e.value != 0
    ensures Consecutive([e] + rest, e.offset, hi)
  {
    var items := [e] + rest;
    forall i | 0 <= i < |items| ensures items[i].offset == e.offset + 8 * i && items[i].value != 0 {
      if i > 0 { assert items[i] == rest[i - 1]; }
    }
  }

  lemma GapConsecutive(base: int, lo: int, hi: int, magic: Byte)
    requires base <= lo <= hi && (hi - base) % 16 == 0 && magic != 0
    ensures Consecutive(GapItems(base, lo, hi, magic), base + Down8(lo - base), hi)
  {
    hide Down8, Consecutive;
    var aoff := base + Down8(lo - base);
    Rounding(lo - base, hi - base);
    assert hi - aoff == hi - base - Down8(lo - base);
    assert hi - (aoff + 8) == hi - base - (Down8(lo - base) + 8);
    if lo != aoff {
      FillConsecutive(aoff + 8, hi, magic);
      ConsecutiveCons(Item(aoff, lo - aoff), Fill(aoff + 8, hi, magic), hi);
    } else {
      FillConsecutive(lo, hi, magic);
    }
  }

  lemma Rounding(lo: int, hi: int)
    requires 0 <= lo <= hi && hi % 16 == 0
    ensures (hi - Down8(lo)) % 8 == 0 && (hi - (Down8(lo) + 8)) % 8 == 0 && Down8(lo) <= hi && 0 <= lo - Down8(lo) < 8
    ensures Down8(lo) != lo ==> Down8(lo) + 8 <= hi
  {
  }

  // ----- What the prologue asks for -----

  /** The gap `l`, from `offsets[l + 1]` up to `offsets[l]`. */
  lemma GapOf(offsets: seq<int>, l: nat)
    requires Layout(offsets) && l + 2 <= |offsets| && l % 2 == 0
    ensures Base(offsets) <= offsets[l + 1] <= offsets[l] && (offsets[l] - Base(offsets)) % 16 == 0
    ensures Consecutive(GapItems(Base(offsets), offsets[l + 1], offsets[l], Magic(|offsets|, l + 2)),
                        Base(offsets) + Down8(offsets[l + 1] - Base(offsets)), offsets[l])
  {
    assert offsets[|offsets| - 1] <= offsets[l + 1];
    assert Aligned(offsets, l);
    GapConsecutive(Base(offsets), offsets[l + 1], offsets[l], Magic(|offsets|, l + 2));
  }

  /** An item of a gap above `l`. */
  ghost predicate InGap(offsets: seq<int>, l: nat, e: Item) {
    exists m :: l <= m < |offsets| - 1 && m % 2 == 0 && Inside(offsets, m, e.offset)
  }

  /** A granule the prologue asks to poison for the gap `m`. */
  ghost predicate Inside(offsets: seq<int>, m: nat, x: int)
    requires m + 2 <= |offsets|
  {
    Base(offsets) + Down8(offsets[m + 1] - Base(offsets)) <= x < offsets[m]
  }

  /** The items asked for above `l`: granules of gaps, in increasing order, none of them zero. */
  ghost predicate Asked(offsets: seq<int>, l: nat, items: seq<Item>)
    requires |offsets| >= 2 && l <= |offsets|
  {
    && Increasing(Base(offsets), items)
    && (forall i :: 0 <= i < |items| ==> items[i].value != 0 && InGap(offsets, l, items[i]))
    && (items != [] ==> l < |offsets| && Last(items).offset < offsets[l])
  }

  lemma {:induction false} EmittedAsked(offsets: seq<int>, l: nat)
    requires Layout(offsets) && l <= |offsets| && l % 2 == 0
    ensures Asked(offsets, l, Emitted(offsets, l))
    decreases |offsets| - l
  {
    hide GapItems, Consecutive, InGap, Down8, Magic;
    if l == |offsets| {
    } else {
      EmittedAsked(offsets, l + 2);
      GapOf(offsets, l);
      AskedStep(offsets, l, Emitted(offsets, l + 2),
                GapItems(Base(offsets), offsets[l + 1], offsets[l], Magic(|offsets|, l + 2)));
    }
  }

  lemma Down8Between(x: int, y: int)
    requires 0 <= x <= y && x % 16 == 0
    ensures x <= Down8(y) <= y && Down8(y) % 8 == 0
  {
  }

  lemma AskedStep(offsets: seq<int>, l: nat, items: seq<Item>, gap: seq<Item>)
    requires Layout(offsets) && l + 2 <= |offsets| && l % 2 == 0
    requires Asked(offsets, l + 2, items)
    requires Consecutive(gap, Base(offsets) + Down8(offsets[l + 1] - Base(offsets)), offsets[l])
    ensures Asked(offsets, l, items + gap)
  {
    hide Down8, InGap, Inside, Increasing, Consecutive, Layout;
    var base, all := Base(offsets), items + gap;
    GapPlace(offsets, l);
    var first := base + Down8(offsets[l + 1] - base);
    RunAppended(base, items, gap, first, offsets[l]);
    forall i | 0 <= i < |all| ensures all[i].value != 0 && InGap(offsets, l, all[i]) {
      if i < |items| {
        InGapMono(offsets, l, items[i]);
      } else {
        RunMember(gap, first, offsets[l], i - |items|);
        InThisGap(offsets, l, all[i]);
      }
    }
    if gap != [] { RunMember(gap, first, offsets[l], |gap| - 1); }
    if gap == [] { RunEmpty(gap, first, offsets[l]); }
  }

  /** Where the gap `l` starts: on a granule, not below the end of the gap before it. */
  lemma GapPlace(offsets: seq<int>, l: nat)
    requires Layout(offsets) && l + 2 <= |offsets| && l % 2 == 0
    ensures var base := Base(offsets);
            var first := base + Down8(offsets[l + 1] - base);
            && base % 8 == 0 && base <= first && first % 8 == 0
            && (l + 2 < |offsets| ==> offsets[l + 2] <= first && offsets[l + 2] <= offsets[l])
  {
    var base := Base(offsets);
    assert offsets[|offsets| - 1] <= offsets[l + 1];
    if l + 2 < |offsets| {
      assert offsets[|offsets| - 1] <= offsets[l + 2] <= offsets[l + 1] && offsets[l + 2] <= offsets[l];
      assert Aligned(offsets, l + 2);
    }
    hide Layout, Down8;
    Down8Between(0, offsets[l + 1] - base);
    if l + 2 < |offsets| { Down8Between(offsets[l + 2] - base, offsets[l + 1] - base); }
    assert (base + Down8(offsets[l + 1] - base)) % 8 == 0 by { SumOfEights(base, Down8(offsets[l + 1] - base)); }
  }

  lemma SumOfEights(x: int, y: int)
    requires x % 8 == 0 && y % 8 == 0
    ensures (x + y) % 8 == 0
  {
  }

  lemma RunMember(gap: seq<Item>, first: int, hi: int, i: int)
    requires Consecutive(gap, first, hi) && 0 <= i < |gap|
    ensures gap[i].value != 0 && first <= gap[i].offset < hi
  {
  }

  lemma RunEmpty(gap: seq<Item>, first: int, hi: int)
    requires Consecutive(gap, first, hi) && gap == []
    ensures first == hi
  {
  }

  /** A run of granules after increasing items that end below it. */
  lemma RunAppended(base: int, items: seq<Item>, gap: seq<Item>, first: int, hi: int)
    requires Increasing(base, items) && Consecutive(gap, first, hi) && base <= first && first % 8 == 0
    requires items != [] ==> Last(items).offset < first
    ensures Increasing(base, items + gap)
  {
    var all := items + gap;
    forall i | 0 <= i < |gap| ensures gap[i].offset % 8 == 0 && gap[i].offset >= base {
      assert gap[i].offset == first + 8 * i;
      SumOfEights(first, 8 * i);
    }
    forall i, j | 0 <= i < j < |all| ensures all[i].offset < all[j].offset {
      if i < |items| <= j {
        assert items[i].offset <= Last(items).offset;
      }
    }
  }

  lemma InGapMono(offsets: seq<int>, l: nat, e: Item)
    requires InGap(offsets, l + 2, e)
    ensures InGap(offsets, l, e)
  {
  }

  lemma InThisGap(offsets: seq<int>, l: nat, e: Item)
    requires l + 2 <= |offsets| && l % 2 == 0
    requires Base(offsets) + Down8(offsets[l + 1] - Base(offsets)) <= e.offset < offsets[l]
    ensures InGap(offsets, l, e)
  {
    assert Inside(offsets, l, e.offset);
  }

  // ----- When the prologue poisons exactly what it asks for -----

  /** No gap is empty: every variable is followed by a red zone. */
  ghost predicate Gapped(offsets: seq<int>) {
    forall l :: 0 <= l < |offsets| - 1 && l % 2 == 0 ==> offsets[l + 1] < offsets[l]
  }

  /** The variable from `offsets[l + 2]` to `offsets[l + 1]` starts in the middle of a red zone and fills one granule but not
      two. */
  ghost predicate Tight(offsets: seq<int>, l: nat)
    requires l + 3 <= |offsets|
  {
    (offsets[l + 2] - Base(offsets)) % 32 == 16 && 8 <= offsets[l + 1] - offsets[l + 2] < 16
  }

  ghost predicate NoneTight(offsets: seq<int>, l: nat)
  {
    forall m :: l <= m < |offsets| - 2 && m % 2 == 0 ==> !Tight(offsets, m)
  }

  /** After the gaps above `l`, the last item is the granule below `offsets[l]`. */
  ghost predicate Reached(offsets: seq<int>, l: nat, items: seq<Item>)
    requires |offsets| >= 2 && l <= |offsets|
  {
    && (l < |offsets| ==> items != [] && Last(items).offset == offsets[l] - 8)
    && (l == |offsets| ==> items == [])
    && (Smooth(Base(offsets), items) <==> NoneTight(offsets, l))
  }

  lemma {:induction false} EmittedSmooth(offsets: seq<int>, l: nat)
    requires Layout(offsets) && Gapped(offsets) && l <= |offsets| && l % 2 == 0
    ensures Increasing(Base(offsets), Emitted(offsets, l))
    ensures Reached(offsets, l, Emitted(offsets, l))
    decreases |offsets| - l
  {
    EmittedAsked(offsets, l);
    if l == |offsets| {
    } else {
      EmittedSmooth(offsets, l + 2);
      GapOf(offsets, l);
      ReachedStep(offsets, l, Emitted(offsets, l + 2),
                  GapItems(Base(offsets), offsets[l + 1], offsets[l], Magic(|offsets|, l + 2)));
    }
  }

  lemma ReachedStep(offsets: seq<int>, l: nat, items: seq<Item>, gap: seq<Item>)
    requires Layout(offsets) && Gapped(offsets) && l + 2 <= |offsets| && l % 2 == 0
    requires Reached(offsets, l + 2, items) && Increasing(Base(offsets), items + gap)
    requires Consecutive(gap, Base(offsets) + Down8(offsets[l + 1] - Base(offsets)), offsets[l])
    ensures Reached(offsets, l, items + gap)
  {
    hide Smooth, Increasing, Down8, NoneTight, Consecutive, Tight;
    assert offsets[l + 1] < offsets[l];
    assert offsets[|offsets| - 1] <= offsets[l + 1];
    assert Aligned(offsets, l);
    hide Layout, Gapped;
    GapNotEmpty(Base(offsets), offsets[l + 1], offsets[l], gap);
    SmoothAppend(Base(offsets), items, gap, Base(offsets) + Down8(offsets[l + 1] - Base(offsets)), offsets[l]);
    NoneTightStep(offsets, l);
    if l + 2 < |offsets| {
      TightJump(offsets, l, items);
    }
  }

  lemma GapNotEmpty(base: int, lo: int, hi: int, gap: seq<Item>)
    requires base <= lo < hi && (hi - base) % 16 == 0 && Consecutive(gap, base + Down8(lo - base), hi)
    ensures gap != [] && Last(gap).offset == hi - 8
  {
  }

  lemma NoneTightStep(offsets: seq<int>, l: nat)
    requires l % 2 == 0 && l + 2 <= |offsets|
    ensures NoneTight(offsets, l) <==> NoneTight(offsets, l + 2) && (l + 2 < |offsets| ==> !Tight(offsets, l))
  {
    if NoneTight(offsets, l) && l + 2 < |offsets| { assert !Tight(offsets, l); }
  }

  /** A run of consecutive items is smooth, so appending one matters only where it starts. */
  lemma SmoothAppend(original: int, items: seq<Item>, gap: seq<Item>, first: int, hi: int)
    requires Increasing(original, items + gap) && Consecutive(gap, first, hi) && gap != []
    ensures Smooth(original, items + gap) <==>
            Smooth(original, items)
            && (items != [] && SameWindow(Index(original, Last(items).offset), Index(original, first))
                ==> Index(original, first) == Index(original, Last(items).offset) + 1)
  {
    hide Index, SameWindow, SmoothAt, Increasing;
    var all, n := items + gap, |items|;
    forall j | 0 <= j < n ensures SmoothAt(original, items, j) == SmoothAt(original, all, j) {
      SmoothPrefix(original, items, all, j);
    }
    forall j | n < j < |all| ensures SmoothAt(original, all, j) {
      RunIsSmooth(original, all, j);
    }
    AtJoint(original, items, gap);
    assert gap[0].offset == first;
    assert Smooth(original, all) ==> SmoothAt(original, all, n);
  }

  lemma RunIsSmooth(original: int, all: seq<Item>, j: int)
    requires 0 < j < |all| && all[j].offset == all[j - 1].offset + 8
    ensures SmoothAt(original, all, j)
  {
    NextIndex(original, all[j - 1].offset);
  }

  lemma AtJoint(original: int, items: seq<Item>, gap: seq<Item>)
    requires gap != []
    ensures SmoothAt(original, items + gap, |items|) <==>
            (items != [] && SameWindow(Index(original, Last(items).offset), Index(original, gap[0].offset))
             ==> Index(original, gap[0].offset) == Index(original, Last(items).offset) + 1)
  {
    hide Index, SameWindow;
    var all, n := items + gap, |items|;
    assert AsanBuffer.At(original, all, n) == Index(original, gap[0].offset);
    if items != [] { assert AsanBuffer.At(original, all, n - 1) == Index(original, Last(items).offset); }
  }

  lemma NextIndex(original: int, offset: int)
    ensures Index(original, offset + 8) == Index(original, offset) + 1
  {
  }

  lemma TightJump(offsets: seq<int>, l: nat, items: seq<Item>)
    requires Layout(offsets) && l % 2 == 0 && l + 2 < |offsets| && items != []
    requires Last(items).offset == offsets[l + 2] - 8
    ensures var p, f := Index(Base(offsets), Last(items).offset), Index(Base(offsets), Base(offsets) + Down8(offsets[l + 1] - Base(offsets)));
            (SameWindow(p, f) ==> f == p + 1) <==> !Tight(offsets, l)
  {
    var s, e := offsets[l + 2] - Base(offsets), offsets[l + 1] - Base(offsets);
    assert Aligned(offsets, l + 2);
    assert 0 <= s <= e;
    WindowJump(s, e);
    assert Index(Base(offsets), Base(offsets) + Down8(e)) == Down8(e) / 8;
    assert Index(Base(offsets), Last(items).offset) == (s - 8) / 8;
  }

  /** From the granule below `s` to that of `e`: inside one window, but not adjacent, only if `s` halves the window and `e` lies
      in the last granule of it. */
  lemma WindowJump(s: int, e: int)
    requires 0 <= s <= e && s % 16 == 0
    ensures var p, f := (s - 8) / 8, Down8(e) / 8;
            (SameWindow(p, f) ==> f == p + 1) <==> !(s % 32 == 16 && 8 <= e - s < 16)
  {
    var k, d := s / 16, e - s;
    var u, v := d / 8, d % 8;
    assert s == 16 * k && d == 8 * u + v;
    Eighth(s - 8, 2 * k - 1, 0);
    Eighth(e, 2 * k + u, v);
    assert Down8(e) == 8 * (2 * k + u);
    Eighth(Down8(e), 2 * k + u, 0);
    var m := k / 2;
    if k % 2 == 0 {
      Quarter(2 * k - 1, m - 1, 3);
      assert 2 * k + u >= 4 * m;
      assert s == 32 * m + 0;
    } else {
      Quarter(2 * k - 1, m, 1);
      assert 2 * k + u == 4 * m + (2 + u);
      if u <= 1 { Quarter(2 * k + u, m, 2 + u); }
      assert s == 32 * m + 16;
    }
  }

  lemma Eighth(x: int, q: int, r: int)
    requires x == 8 * q + r && 0 <= r < 8
    ensures x / 8 == q && x % 8 == r
  {
  }

  lemma Quarter(x: int, q: int, r: int)
    requires x == 4 * q + r && 0 <= r < 4
    ensures x / 4 == q
  {
  }

  /** The prologue's stores make exactly the shadow that was asked for, each window stored to once, if and only if no variable
      that starts in the middle of a red zone fills one granule but not two. */
  lemma PrologueExact(big: bool, offsets: seq<int>)
    requires Layout(offsets) && Gapped(offsets)
    ensures Increasing(Base(offsets), Emitted(offsets, 0))
    ensures AllRight(big, Base(offsets), Emitted(offsets, 0), Run(big, Base(offsets), Emitted(offsets, 0)))
            <==> NoneTight(offsets, 0)
    ensures Ascending(Stored(big, Run(big, Base(offsets), Emitted(offsets, 0)))) <==> NoneTight(offsets, 0)
  {
    hide NoneTight, Smooth, Harmless, Run, AllRight, Increasing;
    var items := Emitted(offsets, 0);
    EmittedAsked(offsets, 0);
    EmittedSmooth(offsets, 0);
    ExactIffHarmless(big, Base(offsets), items);
    HarmlessIffSmooth(Base(offsets), items);
    OneStorePerWindow(big, Base(offsets), items);
  }

  /** A frame of two red zones with an eight-byte variable 48 bytes in: some of what the prologue asks for is not poisoned. */
  lemma TightFrame(big: bool)
    ensures var offsets := [64, 56, 48, 0];
            && Layout(offsets) && Gapped(offsets) && Increasing(0, Emitted(offsets, 0))
            && !AllRight(big, 0, Emitted(offsets, 0), Run(big, 0, Emitted(offsets, 0)))
  {
    var offsets := [64, 56, 48, 0];
    assert Layout(offsets) && Gapped(offsets);
    assert Tight(offsets, 0);
    PrologueExact(big, offsets);
  }

  /** With the frame a whole number of red zones the buffer is empty when the prologue is done, and only then. */
  lemma PrologueFlushed(big: bool, offsets: seq<int>)
    requires Layout(offsets) && Gapped(offsets)
    ensures Increasing(Base(offsets), Emitted(offsets, 0))
    ensures Run(big, Base(offsets), Emitted(offsets, 0)).bytes == [] <==> (offsets[0] - Base(offsets)) % 32 == 0
  {
    hide Run, NoneTight, Smooth;
    EmittedSmooth(offsets, 0);
    EmptyAfter(big, Base(offsets), Emitted(offsets, 0));
    LastGranule(offsets[0] - Base(offsets));
  }

  lemma LastGranule(size: int)
    ensures (size - 8) % 32 == 24 <==> size % 32 == 0
  {
  }

  // ----- In place -----

  /** Emits the shadow bytes of every gap, from the base up. */
  method Prologue(big: bool, offsets: seq<int>) returns (buffer: RedzoneBuffer)
    requires Layout(offsets)
    ensures fresh(buffer) && buffer.big == big
    ensures Increasing(Base(offsets), Emitted(offsets, 0))
    ensures buffer.State() == Run(big, Base(offsets), Emitted(offsets, 0))
  {
    hide Run, Increasing, GapItems, Emitted, Layout;
    LayoutBasics(offsets);
    var length, base := |offsets|, Base(offsets);
    var magic := LEFT;
    buffer := new RedzoneBuffer(big, base);
    var l := length;
    NothingEmitted(big, offsets);
    while l != 0
      invariant 0 <= l <= length && l % 2 == 0
      invariant magic == if l == length then LEFT else MIDDLE
      invariant fresh(buffer) && buffer.big == big && Increasing(base, Emitted(offsets, l))
      invariant buffer.State() == Run(big, base, Emitted(offsets, l))
    {
      if l == 2 { magic := RIGHT; }
      NextEmitted(offsets, l);
      EmitGap(buffer, big, base, offsets[l - 1], offsets[l - 2], magic, Emitted(offsets, l));
      magic := MIDDLE;
      l := l - 2;
    }
  }

  lemma NothingEmitted(big: bool, offsets: seq<int>)
    requires Layout(offsets)
    ensures Increasing(Base(offsets), Emitted(offsets, |offsets|))
    ensures Run(big, Base(offsets), Emitted(offsets, |offsets|)) == New(Base(offsets))
  {
  }

  lemma NextEmitted(offsets: seq<int>, l: nat)
    requires Layout(offsets) && 2 <= l <= |offsets| && l % 2 == 0
    ensures var base, lo, hi := Base(offsets), offsets[l - 1], offsets[l - 2];
            && base <= lo <= hi && (hi - base) % 16 == 0
            && Emitted(offsets, l - 2) == Emitted(offsets, l) + GapItems(base, lo, hi, Magic(|offsets|, l))
            && Increasing(base, Emitted(offsets, l - 2))
  {
    hide GapItems, Increasing, Layout, Consecutive, Down8;
    LayoutBasics(offsets);
    EmittedAsked(offsets, l - 2);
    GapOf(offsets, l - 2);
    assert l - 2 + 2 == l;
  }

  lemma {:induction false} FillAt(lo: int, hi: int, magic: Byte, i: nat)
    requires i < |Fill(lo, hi, magic)|
    ensures Fill(lo, hi, magic)[i] == Item(lo + 8 * i, magic)
    decreases i
  {
    if i == 0 {
    } else {
      FillAt(lo + 8, hi, magic, i - 1);
    }
  }

  lemma GapItemAt(base: int, lo: int, hi: int, magic: Byte, i: nat)
    requires i < |GapItems(base, lo, hi, magic)|
    ensures var aoff := base + Down8(lo - base);
            GapItems(base, lo, hi, magic)[i] == if i == 0 && lo != aoff then Item(aoff, lo - aoff) else Item(aoff + 8 * i, magic)
  {
    var aoff := base + Down8(lo - base);
    if lo == aoff {
      FillAt(lo, hi, magic, i);
    } else if i > 0 {
      FillAt(aoff + 8, hi, magic, i - 1);
    }
  }

  /** One more item of `gap` after `items` and the first `done` of it. */
  lemma RunNext(big: bool, base: int, items: seq<Item>, gap: seq<Item>, done: nat)
    requires Increasing(base, items + gap) && done < |gap|
    ensures Increasing(base, items + gap[..done]) && Increasing(base, items + gap[..done + 1])
    ensures var b, e := Run(big, base, items + gap[..done]), gap[done];
            && e.offset % GRANULARITY == 0 && e.offset >= b.prev && |b.bytes| < 4 && (b.prev - b.original) % RED_ZONE == 0
            && Run(big, base, items + gap[..done + 1]) == Emit(big, b, e.offset, e.value)
  {
    hide Emit, Run, Increasing;
    var before, after, n := items + gap[..done], items + gap[..done + 1], |items|;
    assert before == (items + gap)[..n + done];
    assert after == (items + gap)[..n + done + 1];
    IncreasingPrefix(base, items + gap, n + done);
    IncreasingPrefix(base, items + gap, n + done + 1);
    assert before + [gap[done]] == after;
    RunSettled(big, base, before);
    RunUnfold(big, base, before, gap[done]);
  }

  lemma IncreasingPrefix(base: int, items: seq<Item>, n: nat)
    requires Increasing(base, items) && n <= |items|
    ensures Increasing(base, items[..n])
  {
  }

  lemma RunUnfold(big: bool, base: int, items: seq<Item>, e: Item)
    requires Increasing(base, items + [e]) && Increasing(base, items)
    ensures var b := Run(big, base, items);
            && e.offset % GRANULARITY == 0 && e.offset >= b.prev
            && Run(big, base, items + [e]) == Emit(big, b, e.offset, e.value)
  {
    hide Emit, Index, Increasing;
    assert Front(items + [e]) == items && Last(items + [e]) == e;
    EmitSettles(big, base, items, e, Run(big, base, items));
  }

  lemma RunSettled(big: bool, base: int, items: seq<Item>)
    requires Increasing(base, items)
    ensures var b := Run(big, base, items);
            |b.bytes| < 4 && b.original == base && (b.prev - base) % RED_ZONE == 0
  {
    hide Run;
    if items != [] {
      var g := Index(base, Last(items).offset);
      assert (8 * (g - g % 4)) % 32 == 0;
    }
  }

  /** Emits the shadow bytes of one gap after `items`. */
  method EmitGap(buffer: RedzoneBuffer, big: bool, base: int, lo: int, hi: int, magic: Byte, ghost items: seq<Item>)
    requires base <= lo <= hi && (hi - base) % 16 == 0 && magic != 0
    requires Increasing(base, items + GapItems(base, lo, hi, magic)) && Increasing(base, items)
    requires buffer.big == big && buffer.State() == Run(big, base, items)
    modifies buffer
    ensures buffer.State() == Run(big, base, items + GapItems(base, lo, hi, magic))
  {
    hide Run, Emit, GapItems, Increasing, Down8;
    ghost var gap := GapItems(base, lo, hi, magic);
    ghost var done := 0;
    assert items + gap[..0] == items;
    GapConsecutive(base, lo, hi, magic);
    Rounding(lo - base, hi - base);
    var offset := lo;
    var aoff := base + Down8(lo - base);
    if lo != aoff {
      RunNext(big, base, items, gap, 0);
      GapItemAt(base, lo, hi, magic, 0);
      buffer.EmitRedzoneByte(aoff, lo - aoff);
      offset := aoff + 8;
      done := 1;
    }
    while offset < hi
      invariant 0 <= done <= |gap| && offset == aoff + 8 * done
      invariant lo != aoff ==> done >= 1
      invariant Increasing(base, items + gap[..done])
      invariant buffer.State() == Run(big, base, items + gap[..done])
    {
      RunNext(big, base, items, gap, done);
      GapItemAt(base, lo, hi, magic, done);
      buffer.EmitRedzoneByte(offset, magic);
      offset := offset + 8;
      done := done + 1;
    }
    assert gap[..done] == gap;
  }
}
