/** The buffer that collects the shadow bytes of a stack frame and writes them four at a time. */
module AsanBuffer {
  import opened Options

  const GRANULARITY := 8
  const RED_ZONE := 32

  type Byte = b: int | 0 <= b < 256

  /** A shadow byte asked for at a frame offset. */
  datatype Item = Item(offset: int, value: Byte)

  /** A four-byte store of `word` at shadow position `addr`. */
  datatype Store = Store(addr: int, word: nat)

  /** The buffer: the shadow position `mem` and the frame offset `prev` it stands at, the offset it started at, the bytes
      not yet written, and the stores already made.  Shadow positions count from the shadow of `original`. */
  datatype Buffer = Buffer(mem: int, prev: int, original: int, bytes: seq<Byte>, stores: seq<Store>)

  function New(original: int): Buffer {
    Buffer(0, original, original, [], [])
  }

  function Zeros(n: nat): seq<Byte> {
    seq(n, _ => 0)
  }

  /** The first four bytes, zero where there are fewer. */
  function Padded(bytes: seq<Byte>): (r: seq<Byte>)
    ensures |r| == 4
  {
    (bytes + Zeros(4))[..4]
  }

  /** The word whose store puts byte `k` of `p` at address `k`. */
  function Word(big: bool, p: seq<Byte>): nat
    requires |p| == 4
  {
    if big then Digits(p[3], p[2], p[1], p[0]) else Digits(p[0], p[1], p[2], p[3])
  }

  function Digits(a: int, b: int, c: int, d: int): int {
    a + 256 * b + 65536 * c + 16777216 * d
  }

  function Shift(i: nat): nat {
    if i == 0 then 1 else if i == 1 then 256 else if i == 2 then 65536 else 16777216
  }

  /** The byte at address `k` of a stored word. */
  function ByteAt(big: bool, word: nat, k: nat): (b: Byte)
    requires k < 4
  {
    word / Shift(if big then 3 - k else k) % 256
  }

  lemma StoredBytes(big: bool, p: seq<Byte>, k: nat)
    requires |p| == 4 && k < 4
    ensures ByteAt(big, Word(big, p), k) == p[k]
  {
    var q := if big then [p[3], p[2], p[1], p[0]] else p;
    DigitsApart(q[0], q[1], q[2], q[3]);
  }

  lemma DigitsApart(a: Byte, b: Byte, c: Byte, d: Byte)
    ensures var w := Digits(a, b, c, d);
            w % 256 == a && w / 256 % 256 == b && w / 65536 % 256 == c && w / 16777216 % 256 == d
  {
    var w := Digits(a, b, c, d);
    assert w / 256 == b + 256 * c + 65536 * d;
    assert w / 65536 == c + 256 * d;
    assert w / 16777216 == d;
  }

  function Flush(big: bool, b: Buffer): Buffer {
    if b.bytes == [] then b
    else b.(bytes := [], stores := b.stores + [Store(b.mem, Word(big, Padded(b.bytes)))])
  }

  function FlushIfFull(big: bool, b: Buffer): Buffer {
    if |b.bytes| == 4 then Flush(big, b) else b
  }

  function Emit(big: bool, b: Buffer, offset: int, value: Byte): Buffer
    requires offset % GRANULARITY == 0 && offset >= b.prev
  {
    if b.prev + GRANULARITY * |b.bytes| == offset then
      FlushIfFull(big, b.(bytes := b.bytes + [value]))
    else
      var flushed := Flush(big, b);
      var align := (offset - b.prev) % RED_ZONE;
      var start := offset - align;
      FlushIfFull(big, flushed.(mem := flushed.mem + (start - b.prev) / GRANULARITY, prev := start,
                                bytes := Zeros(align / GRANULARITY) + [value]))
  }

  // ----- Runs -----

  /** The shadow position of a frame offset. */
  function Index(original: int, offset: int): int {
    (offset - original) / GRANULARITY
  }

  /** Granule-aligned offsets from `original` up, each past the one before. */
  ghost predicate Increasing(original: int, items: seq<Item>) {
    && original % GRANULARITY == 0
    && (forall i :: 0 <= i < |items| ==> items[i].offset % GRANULARITY == 0 && items[i].offset >= original)
    && (forall i, j :: 0 <= i < j < |items| ==> items[i].offset < items[j].offset)
  }

  function Front<T>(s: seq<T>): seq<T>
    requires s != []
  {
    s[..|s| - 1]
  }

  function Last<T>(s: seq<T>): T
    requires s != []
  {
    s[|s| - 1]
  }

  /** Where the buffer stands after the last item: in that item's window, with the bytes of the window up to it. */
  ghost predicate Settled(original: int, items: seq<Item>, b: Buffer) {
    if items == [] then b == New(original)
    else
      var g := Index(original, Last(items).offset);
      && b.original == original
      && b.mem == g - g % 4
      && b.prev == original + GRANULARITY * b.mem
      && |b.bytes| == (g % 4 + 1) % 4
  }

  ghost function Run(big: bool, original: int, items: seq<Item>): (b: Buffer)
    requires Increasing(original, items)
    ensures Settled(original, items, b)
  {
    if items == [] then New(original)
    else
      EmitSettles(big, original, Front(items), Last(items), Run(big, original, Front(items)));
      Emit(big, Run(big, original, Front(items)), Last(items).offset, Last(items).value)
  }

  /** One emission, in shadow positions: `g` is the position of `offset`. */
  lemma EmitAt(big: bool, b: Buffer, original: int, offset: int, value: Byte, g: int)
    requires original % GRANULARITY == 0 && offset == original + GRANULARITY * g && g >= b.mem
    requires b.prev == original + GRANULARITY * b.mem && b.mem % 4 == 0
    ensures offset % GRANULARITY == 0 && offset >= b.prev
    ensures Emit(big, b, offset, value) ==
            FlushIfFull(big,
                        if b.mem + |b.bytes| == g then b.(bytes := b.bytes + [value])
                        else Flush(big, b).(mem := g - g % 4, prev := original + GRANULARITY * (g - g % 4),
                                            bytes := Zeros(g % 4) + [value]))
  {
    hide Flush, FlushIfFull;
    WindowStart(original, b.mem, g);
    FlushKeeps(big, b);
  }

  /** The distance to the window of position `g`, in bytes and in positions. */
  lemma WindowStart(original: int, mem: int, g: int)
    requires mem % 4 == 0 && g >= mem && original % 8 == 0
    ensures var distance := original + 8 * g - (original + 8 * mem);
            && distance % 32 == 8 * (g % 4)
            && (original + 8 * g - 8 * (g % 4) - (original + 8 * mem)) / 8 == g - g % 4 - mem
            && (original + 8 * g) % 8 == 0
  {
    var d, m := g - mem, mem / 4;
    assert g == 4 * m + d;
    assert g % 4 == d % 4;
    assert (8 * d) % 32 == 8 * (d % 4);
    assert original + 8 * g - 8 * (g % 4) - (original + 8 * mem) == 8 * (g - g % 4 - mem);
    EightTimes(original, g);
  }

  lemma EightTimes(x: int, g: int)
    requires x % 8 == 0
    ensures (x + 8 * g) % 8 == 0
  {
  }

  lemma FlushKeeps(big: bool, b: Buffer)
    ensures Flush(big, b).mem == b.mem && Flush(big, b).prev == b.prev && Flush(big, b).original == b.original
  {
  }

  lemma IndexBack(original: int, offset: int)
    requires original % GRANULARITY == 0 && offset % GRANULARITY == 0 && offset >= original
    ensures offset == original + GRANULARITY * Index(original, offset) && Index(original, offset) >= 0
  {
  }

  lemma EmitSettles(big: bool, original: int, items: seq<Item>, e: Item, b: Buffer)
    requires Increasing(original, items + [e]) && Settled(original, items, b)
    ensures e.offset % GRANULARITY == 0 && e.offset >= b.prev
    ensures Settled(original, items + [e], Emit(big, b, e.offset, e.value))
  {
    hide Emit, Index;
    assert (items + [e])[|items|] == e;
    IndexBack(original, e.offset);
    var g := Index(original, e.offset);
    if items != [] {
      assert (items + [e])[|items| - 1] == Last(items);
      IndexBack(original, Last(items).offset);
    }
    EmitAt(big, b, original, e.offset, e.value, g);
  }

  // ----- What ends up in the shadow -----

  /** The byte the stores leave at position `a`, if any store covers it. */
  function Shadow(big: bool, stores: seq<Store>, a: int): Option<Byte>
    decreases stores
  {
    if stores == [] then None
    else
      var s := Last(stores);
      if s.addr <= a < s.addr + 4 then Some(ByteAt(big, s.word, a - s.addr)) else Shadow(big, Front(stores), a)
  }

  /** The shadow once the buffer is flushed. */
  function View(big: bool, b: Buffer, a: int): Option<Byte> {
    Shadow(big, Flush(big, b).stores, a)
  }

  lemma ViewOf(big: bool, b: Buffer, a: int)
    requires |b.bytes| <= 4
    ensures View(big, b, a) ==
            if b.bytes != [] && b.mem <= a < b.mem + 4 then Some(Padded(b.bytes)[a - b.mem]) else Shadow(big, b.stores, a)
  {
    if b.bytes != [] {
      var stores := Flush(big, b).stores;
      assert Front(stores) == b.stores;
      if b.mem <= a < b.mem + 4 {
        StoredBytes(big, Padded(b.bytes), a - b.mem);
      }
    }
  }

  lemma ViewFlushed(big: bool, b: Buffer, a: int)
    ensures View(big, FlushIfFull(big, b), a) == View(big, b, a)
  {
  }

  /** The effect of one emission: in the window of `g` the byte is set and what follows it is zero; what precedes it is kept if
      the byte continues the buffer and is zero otherwise. */
  lemma ViewEmit(big: bool, b: Buffer, original: int, offset: int, value: Byte, g: int, a: int)
    requires original % GRANULARITY == 0 && offset == original + GRANULARITY * g && g >= b.mem
    requires b.prev == original + GRANULARITY * b.mem && b.mem % 4 == 0 && |b.bytes| < 4
    requires offset % GRANULARITY == 0 && offset >= b.prev
    ensures View(big, Emit(big, b, offset, value), a) ==
            if !(g - g % 4 <= a < g - g % 4 + 4) then View(big, b, a)
            else if a == g then Some(value)
            else if a > g || b.bytes == [] || b.mem + |b.bytes| != g then Some(0)
            else View(big, b, a)
  {
    hide Emit, View, Flush, Shadow, Padded, FlushIfFull;
    EmitAt(big, b, original, offset, value, g);
    ViewOf(big, b, a);
    if b.mem + |b.bytes| == g {
      var c := b.(bytes := b.bytes + [value]);
      ViewFlushed(big, c, a);
      ViewOf(big, c, a);
      if b.mem <= a < b.mem + 4 {
        PaddedAt(b.bytes, a - b.mem);
        PaddedAt(c.bytes, a - b.mem);
      }
    } else {
      var c := Flush(big, b).(mem := g - g % 4, prev := original + GRANULARITY * (g - g % 4), bytes := Zeros(g % 4) + [value]);
      ViewFlushed(big, c, a);
      ViewOf(big, c, a);
      if g - g % 4 <= a < g - g % 4 + 4 { PaddedAt(c.bytes, a - c.mem); }
      assert Shadow(big, c.stores, a) == View(big, b, a) by { ViewDef(big, b, a); }
    }
  }

  lemma PaddedAt(bytes: seq<Byte>, k: nat)
    requires k < 4
    ensures Padded(bytes)[k] == if k < |bytes| then bytes[k] else 0
  {
  }

  lemma ViewDef(big: bool, b: Buffer, a: int)
    ensures View(big, b, a) == Shadow(big, Flush(big, b).stores, a)
  {
  }

  /** The position of item `i`. */
  ghost function At(original: int, items: seq<Item>, i: int): int
    requires 0 <= i < |items|
  {
    Index(original, items[i].offset)
  }

  ghost predicate SameWindow(a: int, b: int) {
    a / 4 == b / 4
  }

  /** Item `j` does not follow the one before it directly. */
  ghost predicate Jumps(original: int, items: seq<Item>, j: int)
    requires 0 <= j < |items|
  {
    j > 0 && At(original, items, j) != At(original, items, j - 1) + 1
  }

  /** Item `i` is followed by a jump inside its window. */
  ghost predicate Overtaken(original: int, items: seq<Item>, i: int)
    requires 0 <= i < |items|
  {
    exists j :: i < j < |items| && SameWindow(At(original, items, i), At(original, items, j)) && Jumps(original, items, j)
  }

  /** Apart from the positions of the items, the byte `r` at position `a` is zero in a window with an item and nothing in a
      window without one. */
  ghost predicate Around(original: int, items: seq<Item>, a: int, r: Option<Byte>) {
    && (r.Some? <==> exists i :: 0 <= i < |items| && SameWindow(At(original, items, i), a))
    && ((forall i :: 0 <= i < |items| ==> At(original, items, i) != a) ==> r == None || r == Some(0))
  }

  /** The byte `r` at position `a` is right: the value asked for there, if one was. */
  ghost predicate Right(original: int, items: seq<Item>, a: int, r: Option<Byte>) {
    && Around(original, items, a, r)
    && (forall i :: 0 <= i < |items| && At(original, items, i) == a ==> r == Some(items[i].value))
  }

  /** What does end up at position `a`: zero at the position of an overtaken item, and right everywhere else. */
  ghost predicate Left(original: int, items: seq<Item>, a: int, r: Option<Byte>) {
    && Around(original, items, a, r)
    && (forall i :: 0 <= i < |items| && At(original, items, i) == a ==>
          r == Some(if Overtaken(original, items, i) then 0 else items[i].value))
  }

  lemma PositionsIncrease(original: int, items: seq<Item>, i: int, j: int)
    requires Increasing(original, items) && 0 <= i < j < |items|
    ensures 0 <= At(original, items, i) < At(original, items, j)
  {
    IndexBack(original, items[i].offset);
    IndexBack(original, items[j].offset);
  }

  lemma {:induction false} RunLeaves(big: bool, original: int, items: seq<Item>, a: int)
    requires Increasing(original, items)
    ensures Left(original, items, a, View(big, Run(big, original, items), a))
    decreases |items|
  {
    if items == [] {
    } else {
      var prefix, e := Front(items), Last(items);
      RunLeaves(big, original, prefix, a);
      var b := Run(big, original, prefix);
      IndexBack(original, e.offset);
      var g := Index(original, e.offset);
      Stands(big, original, items);
      ViewEmit(big, b, original, e.offset, e.value, g, a);
      LeftStep(original, items, a, View(big, b, a), View(big, Run(big, original, items), a));
    }
  }

  /** Where the buffer stands before the last item. */
  lemma Stands(big: bool, original: int, items: seq<Item>)
    requires Increasing(original, items) && items != []
    ensures var b, g := Run(big, original, Front(items)), At(original, items, |items| - 1);
            && b.prev == original + GRANULARITY * b.mem && b.mem % 4 == 0 && |b.bytes| < 4
            && g >= b.mem && Last(items).offset >= b.prev
            && (b.bytes != [] && b.mem + |b.bytes| == g <==>
                |items| > 1 && !Jumps(original, items, |items| - 1) && SameWindow(At(original, items, |items| - 2), g))
            && Run(big, original, items) == Emit(big, b, Last(items).offset, Last(items).value)
  {
    hide Emit, Flush;
    var prefix := Front(items);
    if prefix != [] {
      assert Last(prefix) == items[|items| - 2];
      PositionsIncrease(original, items, |items| - 2, |items| - 1);
      IndexBack(original, Last(items).offset);
    } else {
      IndexBack(original, Last(items).offset);
    }
  }

  lemma LeftStep(original: int, items: seq<Item>, a: int, was: Option<Byte>, r: Option<Byte>)
    requires Increasing(original, items) && items != [] && Left(original, Front(items), a, was)
    requires var g := At(original, items, |items| - 1);
             r == if !SameWindow(g, a) then was
                  else if a == g then Some(Last(items).value)
                  else if a > g || |items| == 1 || Jumps(original, items, |items| - 1)
                          || !SameWindow(At(original, items, |items| - 2), g) then Some(0)
                  else was
    ensures Left(original, items, a, r)
  {
    hide Overtaken, Increasing, Index;
    AroundStep(original, items, a, was, r);
    forall i | 0 <= i < |items| && At(original, items, i) == a
      ensures r == Some(if Overtaken(original, items, i) then 0 else items[i].value)
    {
      var n := |items| - 1;
      if i == n {
        assert !Overtaken(original, items, n) by { LastNotOvertaken(original, items); }
      } else {
        PositionsIncrease(original, items, i, n);
        assert At(original, Front(items), i) == a;
        OvertakenStep(original, items, i);
        if i < n - 1 { PositionsIncrease(original, items, i, n - 1); }
        PositionsIncrease(original, items, n - 1, n);
      }
    }
  }

  lemma LastNotOvertaken(original: int, items: seq<Item>)
    requires items != []
    ensures !Overtaken(original, items, |items| - 1)
  {
  }

  lemma OvertakenStep(original: int, items: seq<Item>, i: int)
    requires 0 <= i < |items| - 1
    ensures Overtaken(original, items, i) <==>
            Overtaken(original, Front(items), i)
            || (Jumps(original, items, |items| - 1) && SameWindow(At(original, items, i), At(original, items, |items| - 1)))
  {
    var front := Front(items);
    forall j | 0 <= j < |front| ensures At(original, front, j) == At(original, items, j) {}
    forall j | 0 <= j < |front| ensures Jumps(original, front, j) == Jumps(original, items, j) {}
    if Overtaken(original, front, i) {
      var j :| i < j < |front| && SameWindow(At(original, front, i), At(original, front, j)) && Jumps(original, front, j);
      assert Jumps(original, items, j);
    }
    if Overtaken(original, items, i) && !Overtaken(original, front, i) {
      var j :| i < j < |items| && SameWindow(At(original, items, i), At(original, items, j)) && Jumps(original, items, j);
      assert j == |front|;
    }
  }

  lemma AroundStep(original: int, items: seq<Item>, a: int, was: Option<Byte>, r: Option<Byte>)
    requires Increasing(original, items) && items != [] && Around(original, Front(items), a, was)
    requires var g := At(original, items, |items| - 1);
             if SameWindow(g, a) then a == g || r == Some(0) || (r == was && was.Some?) else r == was
    requires var g := At(original, items, |items| - 1);
             SameWindow(g, a) ==> r.Some?
    ensures Around(original, items, a, r)
  {
    var front := Front(items);
    forall j | 0 <= j < |front| ensures At(original, front, j) == At(original, items, j) {}
    if exists i :: 0 <= i < |front| && SameWindow(At(original, front, i), a) {
      var i :| 0 <= i < |front| && SameWindow(At(original, front, i), a);
      assert SameWindow(At(original, items, i), a);
    }
  }

  // ----- Main results -----

  /** No byte is lost: what precedes a jump inside its own window is zero anyway. */
  ghost predicate Harmless(original: int, items: seq<Item>) {
    forall i :: 0 <= i < |items| && Overtaken(original, items, i) ==> items[i].value == 0
  }

  /** Once flushed, the buffer has made exactly the byte map the items ask for. */
  ghost predicate AllRight(big: bool, original: int, items: seq<Item>, b: Buffer) {
    forall a :: Right(original, items, a, View(big, b, a))
  }

  /** The stores make exactly the byte map that was asked for, if and only if nothing but zeros precedes a jump inside a
      window. */
  lemma ExactIffHarmless(big: bool, original: int, items: seq<Item>)
    requires Increasing(original, items)
    ensures AllRight(big, original, items, Run(big, original, items)) <==> Harmless(original, items)
  {
    hide View, Run, Right, Harmless, Increasing;
    var b := Run(big, original, items);
    forall a ensures Harmless(original, items) ==> Right(original, items, a, View(big, b, a)) {
      RunLeaves(big, original, items, a);
      RightIfHarmless(original, items, a, View(big, b, a));
    }
    if AllRight(big, original, items, b) {
      forall i | 0 <= i < |items| ensures Overtaken(original, items, i) ==> items[i].value == 0 {
        var a := At(original, items, i);
        RunLeaves(big, original, items, a);
        assert Right(original, items, a, View(big, b, a));
        OvertakenIsZero(original, items, i, View(big, b, a));
      }
      assert Harmless(original, items) by { AllHarmless(original, items); }
    }
  }

  lemma RightIfHarmless(original: int, items: seq<Item>, a: int, r: Option<Byte>)
    requires Left(original, items, a, r)
    ensures Harmless(original, items) ==> Right(original, items, a, r)
  {
  }

  lemma OvertakenIsZero(original: int, items: seq<Item>, i: int, r: Option<Byte>)
    requires 0 <= i < |items|
    requires var a := At(original, items, i);
             Left(original, items, a, r) && Right(original, items, a, r)
    ensures Overtaken(original, items, i) ==> items[i].value == 0
  {
  }

  lemma AllHarmless(original: int, items: seq<Item>)
    requires forall i :: 0 <= i < |items| ==> Overtaken(original, items, i) ==> items[i].value == 0
    ensures Harmless(original, items)
  {
  }

  /** Item `j` follows the one before it directly, unless it is in another window. */
  ghost predicate SmoothAt(original: int, items: seq<Item>, j: int)
    requires 0 <= j < |items|
  {
    j > 0 && SameWindow(At(original, items, j - 1), At(original, items, j)) ==> !Jumps(original, items, j)
  }

  /** Items that share a window follow each other directly. */
  ghost predicate Smooth(original: int, items: seq<Item>) {
    forall j :: 0 <= j < |items| ==> SmoothAt(original, items, j)
  }

  /** Whether an item is smooth depends on the items up to it. */
  lemma SmoothPrefix(original: int, items: seq<Item>, all: seq<Item>, j: int)
    requires items <= all && 0 <= j < |items|
    ensures SmoothAt(original, items, j) == SmoothAt(original, all, j)
  {
  }

  /** The positions stored to, in order, once the buffer is flushed. */
  ghost function Stored(big: bool, b: Buffer): seq<int> {
    var stores := Flush(big, b).stores;
    seq(|stores|, i requires 0 <= i < |stores| => stores[i].addr)
  }

  ghost predicate Ascending(s: seq<int>) {
    forall i :: 0 < i < |s| ==> s[i - 1] < s[i]
  }

  /** Every store is to a position aligned to the start, and no window is stored to twice if and only if the items of each
      window follow each other directly. */
  lemma OneStorePerWindow(big: bool, original: int, items: seq<Item>)
    requires Increasing(original, items)
    ensures var s := Stored(big, Run(big, original, items));
            && (forall i :: 0 <= i < |s| ==> s[i] % 4 == 0)
            && (Ascending(s) <==> Smooth(original, items))
  {
    StoresKept(big, original, items);
  }

  /** The stores so far, the last of them to the window of the last item. */
  ghost predicate StoresFor(original: int, items: seq<Item>, s: seq<int>) {
    && (forall i :: 0 <= i < |s| ==> s[i] % 4 == 0)
    && (if items == [] then s == [] else s != [] && Last(s) == At(original, items, |items| - 1) / 4 * 4)
    && (Ascending(s) <==> Smooth(original, items))
  }

  lemma {:induction false} StoresKept(big: bool, original: int, items: seq<Item>)
    requires Increasing(original, items)
    ensures StoresFor(original, items, Stored(big, Run(big, original, items)))
    decreases |items|
  {
    hide Run, Stored, StoresFor, Emit;
    if items == [] {
      NothingStored(big, original);
    } else {
      StoresKept(big, original, Front(items));
      var g, b := At(original, items, |items| - 1), Run(big, original, Front(items));
      IndexBack(original, Last(items).offset);
      Stands(big, original, items);
      StoredEmit(big, b, original, Last(items).offset, Last(items).value, g);
      StoresStep(original, items, Stored(big, b), Stored(big, Run(big, original, items)));
    }
  }

  lemma NothingStored(big: bool, original: int)
    requires Increasing(original, [])
    ensures StoresFor(original, [], Stored(big, Run(big, original, [])))
  {
  }

  lemma StoresStep(original: int, items: seq<Item>, was: seq<int>, s: seq<int>)
    requires Increasing(original, items) && items != [] && StoresFor(original, Front(items), was)
    requires var g := At(original, items, |items| - 1);
             s == if |items| > 1 && !Jumps(original, items, |items| - 1) && SameWindow(At(original, items, |items| - 2), g) then was
                  else was + [g / 4 * 4]
    ensures StoresFor(original, items, s)
  {
    hide Smooth, Jumps, Increasing, Ascending;
    var n := |items| - 1;
    var g := At(original, items, n);
    SmoothStep(original, items);
    if n > 0 {
      PositionsIncrease(original, items, n - 1, n);
      assert At(original, Front(items), n - 1) == At(original, items, n - 1);
      AscendingStep(was, g / 4 * 4);
    } else {
      assert s == [g / 4 * 4];
      assert Ascending(s) && Ascending(was) by { OneAscends(was); OneAscends(s); }
    }
  }

  lemma OneAscends(s: seq<int>)
    requires |s| <= 1
    ensures Ascending(s)
  {
  }

  lemma AscendingStep(s: seq<int>, x: int)
    requires s != []
    ensures Ascending(s + [x]) <==> Ascending(s) && Last(s) < x
  {
    var t := s + [x];
    if Ascending(t) {
      forall i | 0 < i < |s| ensures s[i - 1] < s[i] { assert t[i - 1] < t[i]; }
      assert t[|s| - 1] < t[|s|];
    }
  }

  lemma SmoothStep(original: int, items: seq<Item>)
    requires items != []
    ensures Smooth(original, items) <==> Smooth(original, Front(items)) && SmoothAt(original, items, |items| - 1)
  {
    hide SmoothAt;
    var front := Front(items);
    forall j | 0 <= j < |front| ensures SmoothAt(original, front, j) == SmoothAt(original, items, j) {
      SmoothPrefix(original, front, items, j);
    }
  }

  lemma StoredEmit(big: bool, b: Buffer, original: int, offset: int, value: Byte, g: int)
    requires original % GRANULARITY == 0 && offset == original + GRANULARITY * g && g >= b.mem
    requires b.prev == original + GRANULARITY * b.mem && b.mem % 4 == 0 && |b.bytes| < 4
    requires offset % GRANULARITY == 0 && offset >= b.prev
    ensures Stored(big, Emit(big, b, offset, value)) ==
            if b.bytes != [] && b.mem + |b.bytes| == g then Stored(big, b) else Stored(big, b) + [g / 4 * 4]
  {
    hide Emit;
    EmitAt(big, b, original, offset, value, g);
  }

  /** Where no zero is asked for, losing nothing and storing once to a window are the same. */
  lemma HarmlessIffSmooth(original: int, items: seq<Item>)
    requires Increasing(original, items) && forall i :: 0 <= i < |items| ==> items[i].value != 0
    ensures Harmless(original, items) <==> Smooth(original, items)
  {
    hide SmoothAt, Overtaken, Increasing;
    if !Smooth(original, items) {
      var j :| 0 <= j < |items| && !SmoothAt(original, items, j);
      JumpOvertakes(original, items, j);
    }
    if i :| 0 <= i < |items| && Overtaken(original, items, i) {
      var j := OvertakenJumps(original, items, i);
    }
  }

  lemma JumpOvertakes(original: int, items: seq<Item>, j: int)
    requires 0 <= j < |items| && !SmoothAt(original, items, j)
    ensures j > 0 && Overtaken(original, items, j - 1)
  {
    hide Index;
    var i := j - 1;
    assert i < j < |items| && SameWindow(At(original, items, i), At(original, items, j)) && Jumps(original, items, j);
  }

  lemma OvertakenJumps(original: int, items: seq<Item>, i: int) returns (j: int)
    requires Increasing(original, items) && 0 <= i < |items| && Overtaken(original, items, i)
    ensures 0 <= j < |items| && !SmoothAt(original, items, j)
  {
    hide Index, Increasing;
    j :| i < j < |items| && SameWindow(At(original, items, i), At(original, items, j)) && Jumps(original, items, j);
    PositionsIncrease(original, items, j - 1, j);
    if i < j - 1 { PositionsIncrease(original, items, i, j - 1); }
  }

  /** After the last item the buffer is empty exactly when that item ends its window. */
  lemma EmptyAfter(big: bool, original: int, items: seq<Item>)
    requires Increasing(original, items) && items != []
    ensures Run(big, original, items).bytes == [] <==> (Last(items).offset - original) % RED_ZONE == RED_ZONE - GRANULARITY
  {
    hide Run, Index;
    IndexBack(original, Last(items).offset);
    var g := Index(original, Last(items).offset);
    assert (8 * g) % 32 == 8 * (g % 4);
  }

  /** A frame with an eight-byte variable 16 bytes into a window: the marks of the gap before it are lost. */
  lemma MarksLost(big: bool)
    ensures var items := [Item(0, 0xf1), Item(8, 0xf1), Item(24, 0xf2)];
            && Increasing(0, items) && !Harmless(0, items) && !Smooth(0, items)
            && View(big, Run(big, 0, items), 0) == Some(0)
  {
    var items := [Item(0, 0xf1), Item(8, 0xf1), Item(24, 0xf2)];
    assert At(0, items, 0) == 0 && At(0, items, 1) == 1 && At(0, items, 2) == 3;
    assert Jumps(0, items, 2);
    assert SameWindow(At(0, items, 0), At(0, items, 2));
    assert !SmoothAt(0, items, 2);
    assert Overtaken(0, items, 0);
    RunLeaves(big, 0, items, 0);
  }

  // ----- In place -----

  /** The word built from the first `k` steps of the shift loop. */
  function PartialWord(big: bool, p: seq<Byte>, k: nat): nat
    requires |p| == 4 && k <= 4
  {
    if k == 0 then 0 else PartialWord(big, p, k - 1) + p[if big then 4 - k else k - 1] * Shift(k - 1)
  }

  lemma WordBuilt(big: bool, p: seq<Byte>)
    requires |p| == 4
    ensures PartialWord(big, p, 4) == Word(big, p)
  {
    assert PartialWord(big, p, 1) == p[if big then 3 else 0];
    assert PartialWord(big, p, 2) == PartialWord(big, p, 1) + 256 * p[if big then 2 else 1] as int;
    assert PartialWord(big, p, 3) == PartialWord(big, p, 2) + 65536 * p[if big then 1 else 2] as int;
  }

  lemma AlignKept(original: int, prev: int, offset: int)
    requires (prev - original) % RED_ZONE == 0
    ensures (offset - (offset - prev) % RED_ZONE - original) % RED_ZONE == 0
  {
  }

  class RedzoneBuffer {
    const big: bool
    var mem: int
    var prev: int
    const original: int
    var bytes: seq<Byte>
    var stores: seq<Store>

    ghost function State(): Buffer
      reads this
    {
      Buffer(mem, prev, original, bytes, stores)
    }

    constructor (big: bool, prev: int)
      ensures State() == New(prev) && this.big == big
    {
      this.big := big;
      this.mem, this.prev, this.original := 0, prev, prev;
      this.bytes, this.stores := [], [];
    }

    method EmitRedzoneByte(offset: int, value: Byte)
      requires offset % GRANULARITY == 0 && offset >= prev
      requires |bytes| < 4 && (prev - original) % RED_ZONE == 0
      modifies this
      ensures State() == Emit(big, old(State()), offset, value)
      ensures |bytes| < 4 && (prev - original) % RED_ZONE == 0
    {
      var off := prev + GRANULARITY * |bytes|;
      if off == offset {
        bytes := bytes + [value];
      } else {
        if bytes != [] {
          FlushRedzonePayload();
        }
        MoveTo(offset);
        bytes := bytes + [value];
      }
      FlushBufferIfFull();
    }

    /** Moves to the window of `offset`, with zeros for the window up to it. */
    method MoveTo(offset: int)
      requires bytes == [] && offset >= prev && (prev - original) % RED_ZONE == 0
      modifies this
      ensures var align := (offset - old(prev)) % RED_ZONE;
              && prev == offset - align && (prev - original) % RED_ZONE == 0
              && mem == old(mem) + (offset - align - old(prev)) / GRANULARITY
              && bytes == Zeros(align / GRANULARITY) && |bytes| < 4
              && stores == old(stores)
    {
      AlignKept(original, prev, offset);
      var start := offset;
      var align := (offset - prev) % RED_ZONE;
      if align != 0 {
        start := start - align;
        var i := 0;
        while i < align / 8
          invariant i <= align / 8 && bytes == Zeros(i)
          invariant mem == old(mem) && prev == old(prev) && stores == old(stores)
        {
          bytes := bytes + [0];
          i := i + 1;
        }
      }
      var diff := start - prev;
      mem := mem + diff / GRANULARITY;
      prev := start;
    }

    method FlushRedzonePayload()
      requires bytes != [] ==> (prev - original) % RED_ZONE == 0
      modifies this
      ensures State() == Flush(big, old(State()))
    {
      if bytes == [] { return; }
      var l := |bytes|;
      var i := 0;
      while i <= 4 - l
        invariant 0 <= i && (l <= 4 ==> i <= 5 - l) && (l > 4 ==> i == 0)
        invariant bytes == old(bytes) + Zeros(i)
        invariant mem == old(mem) && prev == old(prev) && stores == old(stores)
      {
        bytes := bytes + [0];
        i := i + 1;
      }
      assert bytes[..4] == Padded(old(bytes));
      var val, k := 0, 0;
      while k < 4
        invariant 0 <= k <= 4 && bytes[..4] == Padded(old(bytes))
        invariant val == PartialWord(big, bytes[..4], k)
        invariant mem == old(mem) && prev == old(prev) && stores == old(stores)
      {
        var v := bytes[if big then 4 - k - 1 else k];
        val := val + v * Shift(k);
        k := k + 1;
      }
      WordBuilt(big, bytes[..4]);
      stores := stores + [Store(mem, val)];
      bytes := [];
    }

    method FlushBufferIfFull()
      requires (prev - original) % RED_ZONE == 0 && |bytes| <= 4
      modifies this
      ensures State() == FlushIfFull(big, old(State())) && |bytes| < 4
    {
      if |bytes| == 4 {
        FlushRedzonePayload();
      }
    }
  }
}
