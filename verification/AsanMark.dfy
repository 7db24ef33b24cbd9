/** Marking a variable as out of scope or in scope: the stores that set its shadow bytes. */
module AsanMark {
  import opened AsanBuffer

  const USE_AFTER_SCOPE: Byte := 0xf8

  /** A store of `size` bytes, 1, 2 or 4, of `word` at shadow position `addr`. */
  datatype Chunk = Chunk(addr: nat, size: nat, word: nat)

  /** How many shadow bytes a variable of `n` bytes has. */
  function ShadowSize(n: nat): (r: nat)
    ensures 8 * r >= n && 8 * r < n + 8
  {
    (n + 7) / 8
  }

  /** The byte a store puts at `k` past its address. */
  function ByteIn(big: bool, c: Chunk, k: nat): Byte
    requires k < c.size && c.size in {1, 2, 4}
  {
    c.word / Shift(if big then c.size - 1 - k else k) % 256
  }

  /** The shadow byte wanted at position `k`: the mark when poisoning; when unpoisoning zero, except that the last byte says how
      many bytes of an incomplete granule may be used. */
  function Wanted(poison: bool, n: nat, k: nat): Byte
    requires n > 0
  {
    if poison then USE_AFTER_SCOPE else if k == ShadowSize(n) - 1 then n % 8 else 0
  }

  /** The byte at position `i` of the word counted from its lowest. */
  function Digit(big: bool, poison: bool, size: nat, last: Byte, i: nat): Byte {
    var lastPos := if last != 0 && !poison then if big then 0 else size - 1 else size;
    if i == lastPos then last else if poison then USE_AFTER_SCOPE else 0
  }

  function Sum(big: bool, poison: bool, size: nat, last: Byte, i: nat): nat
    requires i <= 4
  {
    if i == 0 then 0 else Sum(big, poison, size, last, i - 1) + Digit(big, poison, size, last, i - 1) * Shift(i - 1)
  }

  lemma SumDigits(big: bool, poison: bool, size: nat, last: Byte, n: nat)
    requires n in {1, 2, 4}
    ensures var d := (i: nat) => Digit(big, poison, size, last, i);
            Sum(big, poison, size, last, n) ==
            Digits(d(0), if n >= 2 then d(1) else 0, if n == 4 then d(2) else 0, if n == 4 then d(3) else 0)
  {
    hide Digit;
    assert Sum(big, poison, size, last, 1) == Digit(big, poison, size, last, 0);
    if n >= 2 { assert Sum(big, poison, size, last, 2) == Digits(Digit(big, poison, size, last, 0), Digit(big, poison, size, last, 1), 0, 0); }
    if n == 4 { assert Sum(big, poison, size, last, 3) == Sum(big, poison, size, last, 2) + 65536 * Digit(big, poison, size, last, 2) as int; }
  }

  /** The word is made of its digits. */
  lemma WordDigits(big: bool, poison: bool, size: nat, last: Byte, i: nat)
    requires size in {1, 2, 4} && i < size
    ensures Sum(big, poison, size, last, size) / Shift(i) % 256 == Digit(big, poison, size, last, i)
  {
    hide Digit, Sum, Digits;
    var d := (i: nat) => Digit(big, poison, size, last, i);
    SumDigits(big, poison, size, last, size);
    DigitsApart(d(0), if size >= 2 then d(1) else 0, if size == 4 then d(2) else 0, if size == 4 then d(3) else 0);
  }

  /** The bytes of the word: all the same, with `last` at the highest address if one is given and the variable is
      unpoisoned. */
  lemma WordBytes(big: bool, poison: bool, size: nat, last: Byte, addr: nat, k: nat)
    requires size in {1, 2, 4} && k < size
    ensures ByteIn(big, Chunk(addr, size, Sum(big, poison, size, last, size)), k) ==
            if k == size - 1 && last != 0 && !poison then last else if poison then USE_AFTER_SCOPE else 0
  {
    hide Sum, Shift;
    WordDigits(big, poison, size, last, if big then size - 1 - k else k);
  }

  method StoreShadowBytes(big: bool, poison: bool, addr: nat, size: nat, last: Byte) returns (c: Chunk)
    requires size in {1, 2, 4}
    ensures c.addr == addr && c.size == size
    ensures forall k {:trigger ByteIn(big, c, k)} :: 0 <= k < size ==>
              ByteIn(big, c, k) == if k == size - 1 && last != 0 && !poison then last else if poison then USE_AFTER_SCOPE else 0
  {
    hide ByteIn, Shift;
    var fill: Byte := if poison then USE_AFTER_SCOPE else 0;
    var val, i, lastPos := 0, 0, size;
    if last != 0 && !poison {
      lastPos := if big then 0 else size - 1;
    }
    while i < size
      invariant i <= size && val == Sum(big, poison, size, last, i)
    {
      var shadow := fill;
      if i == lastPos { shadow := last; }
      val := val + shadow * Shift(i);
      i := i + 1;
    }
    c := Chunk(addr, size, val);
    forall k | 0 <= k < size ensures ByteIn(big, c, k) == if k == size - 1 && last != 0 && !poison then last else fill {
      WordBytes(big, poison, size, last, addr, k);
    }
  }

  ghost predicate Multiple(addr: nat, size: nat) {
    size == 1 || (size == 2 && addr % 2 == 0) || (size == 4 && addr % 4 == 0)
  }

  /** Stores one after the other from 0 up to `end`, each at a multiple of its size. */
  ghost predicate Tiles(stores: seq<Chunk>, end: nat)
    decreases stores
  {
    if stores == [] then end == 0
    else
      var c := Last(stores);
      Multiple(c.addr, c.size) && c.addr + c.size == end && Tiles(Front(stores), c.addr)
  }

  /** On a target with strict alignment no store is wider than the alignment of the shadow. */
  ghost predicate AlignedTo(strict: bool, align: nat, stores: seq<Chunk>) {
    forall i :: 0 <= i < |stores| && strict && stores[i].size > 1 ==> stores[i].size <= align
  }

  /** No store could have been wider: a wider one would not fit before `end`, or not be allowed. */
  ghost predicate Widest(strict: bool, align: nat, end: nat, stores: seq<Chunk>) {
    forall i :: 0 <= i < |stores| ==>
      && (stores[i].size < 4 ==> TooWide(strict, align, end, stores[i].addr, 4))
      && (stores[i].size < 2 ==> TooWide(strict, align, end, stores[i].addr, 2))
  }

  predicate TooWide(strict: bool, align: nat, end: nat, addr: nat, width: nat) {
    addr + width > end || (strict && align < width)
  }

  /** Every byte of the store is the wanted one. */
  ghost predicate ChunkRight(big: bool, poison: bool, n: nat, c: Chunk)
    requires n > 0
  {
    c.size in {1, 2, 4} && forall k :: 0 <= k < c.size ==> ByteIn(big, c, k) == Wanted(poison, n, c.addr + k)
  }

  ghost predicate Marked(big: bool, poison: bool, n: nat, stores: seq<Chunk>)
    requires n > 0
  {
    forall i :: 0 <= i < |stores| ==> ChunkRight(big, poison, n, stores[i])
  }

  /** The width of the store at `offset`. */
  function Width(strict: bool, align: nat, left: nat): nat {
    if left >= 4 && (!strict || align >= 4) then 4 else if left >= 2 && (!strict || align >= 2) then 2 else 1
  }

  /** Widths never grow, so a store that follows others is at a multiple of its width. */
  lemma WidthsFall(strict: bool, align: nat, offset: nat, left: nat)
    requires left > 0 && Multiple(offset, Width(strict, align, left))
    ensures var w := Width(strict, align, left);
            w <= left && (left > w ==> Multiple(offset + w, Width(strict, align, left - w)))
  {
    hide Multiple;
    NextMultiple(offset);
    OneIsMultiple(offset);
  }

  lemma OneIsMultiple(offset: nat)
    ensures Multiple(offset + 2, 1) && Multiple(offset + 4, 1) && Multiple(offset + 1, 1)
  {
  }

  lemma NextMultiple(offset: nat)
    ensures Multiple(offset, 4) ==> Multiple(offset + 4, 4) && Multiple(offset + 4, 2)
    ensures Multiple(offset, 2) ==> Multiple(offset + 2, 2)
  {
    if offset % 4 == 0 {
      var k := offset / 4;
      Fours(offset + 4, k + 1);
      Twos(offset + 4, 2 * (k + 1));
    }
    if offset % 2 == 0 { Twos(offset + 2, offset / 2 + 1); }
  }

  lemma Fours(x: nat, q: nat)
    requires x == 4 * q
    ensures x % 4 == 0
  {
  }

  lemma Twos(x: nat, q: nat)
    requires x == 2 * q
    ensures x % 2 == 0
  {
  }

  /** The stores of a mark: they tile the shadow of the variable exactly, without overlap, and byte for byte they are what is
      wanted, whatever the order of bytes in a word. */
  method ExpandMark(big: bool, strict: bool, align: nat, poison: bool, n: nat) returns (stores: seq<Chunk>)
    requires n > 0
    ensures Tiles(stores, ShadowSize(n))
    ensures Marked(big, poison, n, stores)
    ensures AlignedTo(strict, align, stores) && Widest(strict, align, ShadowSize(n), stores)
  {
    hide ChunkRight, ShadowSize, Width, Multiple, TooWide;
    stores := [];
    var shadowSize, offset := ShadowSize(n), 0;
    assert Multiple(0, Width(strict, align, shadowSize)) by { WidthIs(strict, align, 0, shadowSize); }
    while offset < shadowSize
      invariant offset <= shadowSize && Tiles(stores, offset) && Marked(big, poison, n, stores) && AlignedTo(strict, align, stores)
      invariant Widest(strict, align, shadowSize, stores)
      invariant offset < shadowSize ==> Multiple(offset, Width(strict, align, shadowSize - offset))
    {
      WidthIs(strict, align, offset, shadowSize - offset);
      WidthsFall(strict, align, offset, shadowSize - offset);
      ghost var before := stores;
      var c := NextChunk(big, strict, align, poison, n, offset);
      stores := stores + [c];
      assert Front(stores) == before;
      offset := offset + c.size;
    }
  }

  lemma WidthIs(strict: bool, align: nat, offset: nat, left: nat)
    ensures var w := Width(strict, align, left);
            && w >= 1 && (strict && w > 1 ==> w <= align) && (offset == 0 ==> Multiple(offset, w))
            && (w < 4 ==> TooWide(strict, align, offset + left, offset, 4)) && (w < 2 ==> TooWide(strict, align, offset + left, offset, 2))
  {
  }

  /** One round of the loop: the widest store that fits, and what it says about the last granule. */
  method NextChunk(big: bool, strict: bool, align: nat, poison: bool, n: nat, offset: nat) returns (c: Chunk)
    requires n > 0 && offset < ShadowSize(n)
    ensures c.addr == offset && c.size == Width(strict, align, ShadowSize(n) - offset)
    ensures ChunkRight(big, poison, n, c)
  {
    hide ByteIn, ShadowSize;
    var shadowSize := ShadowSize(n);
    var size := 1;
    if shadowSize - offset >= 4 && (!strict || align >= 4) {
      size := 4;
    } else if shadowSize - offset >= 2 && (!strict || align >= 2) {
      size := 2;
    }
    var last := 0;
    var s := (offset + size) * 8;
    if s > n {
      last := 8 - (s - n);
    }
    LastChunk(n, offset, size, last);
    c := StoreShadowBytes(big, poison, offset, size, last);
  }

  lemma LastChunk(n: nat, offset: nat, size: nat, last: int)
    requires n > 0 && size > 0 && offset + size <= ShadowSize(n)
    requires last == if (offset + size) * 8 > n then 8 - ((offset + size) * 8 - n) else 0
    ensures 0 <= last < 8
    ensures last == if offset + size == ShadowSize(n) then n % 8 else 0
  {
    var r := ShadowSize(n);
    var d := n - 8 * (r - 1);
    assert n == 8 * (r - 1) + d && 0 < d <= 8;
  }

  /** Tiling stores cover each position below the end exactly once. */
  lemma {:induction false} TilesCover(stores: seq<Chunk>, end: nat, a: nat)
    requires Tiles(stores, end)
    ensures a < end <==> exists i :: 0 <= i < |stores| && stores[i].addr <= a < stores[i].addr + stores[i].size
    ensures forall i, j :: 0 <= i < j < |stores| ==> stores[i].addr + stores[i].size <= stores[j].addr
    ensures forall i :: 0 <= i < |stores| ==> stores[i].addr + stores[i].size <= end
    decreases stores
  {
    if stores == [] {
    } else {
      var c, front := Last(stores), Front(stores);
      TilesCover(front, c.addr, a);
      if c.addr <= a < end { assert stores[|stores| - 1] == c; }
      if a < c.addr {
        var i :| 0 <= i < |front| && front[i].addr <= a < front[i].addr + front[i].size;
        assert stores[i] == front[i];
      }
      forall i, j | 0 <= i < j < |stores| ensures stores[i].addr + stores[i].size <= stores[j].addr {
        assert stores[i] == front[i];
        if j < |front| { assert stores[j] == front[j]; }
      }
    }
  }
}
