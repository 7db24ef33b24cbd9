/** The generated check of a memory access against the shadow. */
module AsanCheck {

  /** Shadow bytes are signed: 0 for a granule that may be used, `k` from 1 to 7 if only its first `k` bytes may be, negative if
      none may. */
  type Shadow = int -> int

  ghost predicate Encoded(shadow: Shadow) {
    forall g :: -128 <= shadow(g) <= 7
  }

  /** The byte at address `a` may not be accessed. */
  predicate Bad(shadow: Shadow, a: int) {
    shadow(a / 8) != 0 && a % 8 >= shadow(a / 8)
  }

  ghost predicate SomeBad(shadow: Shadow, base: int, len: int) {
    exists a :: base <= a < base + len && Bad(shadow, a)
  }

  // ----- Which accesses stay scalar -----

  predicate PowerOfTwo(n: int) {
    if n <= 1 then n == 1 else n % 2 == 0 && PowerOfTwo(n / 2)
  }

  /** Whether an access said to be scalar is checked as one.  `align` is the alignment in bits, 0 when nothing is known. */
  predicate StaysScalar(size: int, align: nat, strict: bool) {
    if size <= 1 then true
    else if !PowerOfTwo(size) || size > 16 then false
    else if align != 0 && align < size * 8 then size == 16 && !strict && align >= 64
    else true
  }

  lemma SmallPowers(size: int)
    requires 1 < size <= 16
    ensures PowerOfTwo(size) <==> size in {2, 4, 8, 16}
  {
    assert PowerOfTwo(1) && !PowerOfTwo(0);
    assert PowerOfTwo(2) && PowerOfTwo(4) && PowerOfTwo(8) && PowerOfTwo(16);
    assert !PowerOfTwo(3) && !PowerOfTwo(5) && !PowerOfTwo(7) && !PowerOfTwo(9) && !PowerOfTwo(11) && !PowerOfTwo(13) && !PowerOfTwo(15);
    assert !PowerOfTwo(6) && !PowerOfTwo(10) && !PowerOfTwo(14) && !PowerOfTwo(12);
  }

  // ----- The predicate that is generated -----

  /** The test of one byte, or of a few inside one granule: `t` is the position in the granule of the last of them. */
  predicate Slow(shadow: Shadow, base: int, t: int) {
    shadow(base / 8) != 0 && t >= shadow(base / 8)
  }

  /** Whether the check of a scalar access of `size` bytes fires; `align` is in bytes. */
  predicate ScalarFires(shadow: Shadow, base: int, size: int, align: nat) {
    if size >= 8 then shadow(base / 8) != 0 || (size == 16 && shadow(base / 8 + 1) != 0)
    else Slow(shadow, base, (if align < 8 then base % 8 else 0) + (size - 1))
  }

  /** Whether the check of a region fires: nothing is checked of an empty one, else its first and its last byte are. */
  predicate RegionFires(shadow: Shadow, base: int, len: nat, align: nat) {
    && len != 0
    && (Slow(shadow, base, if align < 8 then base % 8 else 0)
        || Slow(shadow, base + len - 1, (base + len - 1) % 8))
  }

  // ----- Scalar accesses -----

  /** The access lies in one granule, or is the whole of two. */
  predicate Contained(base: int, size: int) {
    base % 8 + size <= 8 || (size == 16 && base % 8 == 0)
  }

  /** An access that stays scalar at the alignment it is said to have is contained. */
  lemma ScalarIsContained(base: int, size: int, align: nat, strict: bool)
    requires size >= 1 && StaysScalar(size, align, strict)
    requires align >= 8 && align % 8 == 0 && PowerOfTwo(align / 8) && base % (align / 8) == 0
    ensures size in {1, 2, 4, 8, 16} && Contained(base, size)
  {
    if size > 1 {
      SmallPowers(size);
      AlignedContained(base, if size == 16 then 8 else size, align / 8);
    }
  }

  /** Conversely exactly the accesses that are contained wherever they are aligned as said stay scalar, except that 16 bytes need
      their full alignment on a target that is strict about it. */
  lemma StaysScalarIff(size: int, align: nat, strict: bool)
    requires size >= 1 && align >= 8 && align % 8 == 0 && PowerOfTwo(align / 8)
    ensures StaysScalar(size, align, strict) <==>
            && size in {1, 2, 4, 8, 16} && (size == 16 && strict ==> align >= 128)
            && forall base :: base % (align / 8) == 0 ==> Contained(base, size)
  {
    var a := align / 8;
    if StaysScalar(size, align, strict) {
      forall base | base % a == 0 ensures Contained(base, size) { ScalarIsContained(base, size, align, strict); }
      ScalarIsContained(0, size, align, strict);
    } else if size in {2, 4, 8, 16} {
      SmallPowers(size);
      assert a < size;
      SmallDivisors(a);
      if !(size == 16 && a == 8) {
        assert (8 - a) % a == 0 && !Contained(8 - a, size);
      }
    }
  }

  lemma SmallDivisors(a: int)
    requires PowerOfTwo(a) && 1 <= a < 16
    ensures a in {1, 2, 4, 8}
  {
    if a > 1 { SmallPowers(a); }
  }

  /** A multiple of a power of two is in step with any smaller one. */
  lemma AlignedContained(base: int, size: int, p: int)
    requires PowerOfTwo(p) && size in {2, 4, 8} && p >= size && base % p == 0
    ensures base % 8 + size <= 8
  {
    var k := PowerDivides(p, size);
    var j := base / p;
    assert base == p * j;
    var t := k * j;
    assert base == size * t by { Regroup(size, k, j); }
    if size == 2 {
      Remainder(base, t / 4, 2 * (t % 4));
    } else if size == 4 {
      Remainder(base, t / 2, 4 * (t % 2));
    } else {
      Remainder(base, t, 0);
    }
  }

  lemma Regroup(size: int, k: int, j: int)
    requires size in {2, 4, 8}
    ensures size * k * j == size * (k * j)
  {
  }

  lemma Remainder(base: int, u: int, r: int)
    requires base == 8 * u + r && 0 <= r < 8
    ensures base % 8 == r
  {
  }

  /** A power of two no smaller than a small one is a multiple of it. */
  lemma {:induction false} PowerDivides(p: int, size: int) returns (k: int)
    requires PowerOfTwo(p) && size in {2, 4, 8} && p >= size
    ensures p == size * k
    decreases p
  {
    if p >= 16 {
      var h := p / 2;
      k := PowerDivides(h, size);
      k := 2 * k;
    } else {
      SmallPowers(p);
      k := if p == size then 1 else if p == 2 * size then 2 else 4;
    }
  }

  /** The position in one granule of the bytes of a contained access. */
  lemma InGranule(base: int, size: int, a: int)
    requires base % 8 + size <= 8 && base <= a < base + size
    ensures a / 8 == base / 8 && a % 8 == base % 8 + (a - base)
  {
  }

  /** The check of a contained access fires exactly when one of the bytes may not be accessed. */
  lemma ContainedExact(shadow: Shadow, base: int, size: int, align: nat)
    requires Encoded(shadow) && size in {1, 2, 4, 8, 16} && Contained(base, size) && (align >= 8 ==> base % 8 == 0)
    ensures ScalarFires(shadow, base, size, align) <==> SomeBad(shadow, base, size)
  {
    if size == 16 {
      WholeGranule(shadow, base);
      WholeGranule(shadow, base + 8);
      assert (base + 8) / 8 == base / 8 + 1;
      TwoHalves(shadow, base);
    } else if size == 8 {
      WholeGranule(shadow, base);
    } else {
      var last := base + size - 1;
      InGranule(base, size, last);
      if a :| base <= a < base + size && Bad(shadow, a) {
        InGranule(base, size, a);
      }
      if ScalarFires(shadow, base, size, align) { assert Bad(shadow, last); }
    }
  }

  lemma WholeGranule(shadow: Shadow, base: int)
    requires Encoded(shadow) && base % 8 == 0
    ensures shadow(base / 8) != 0 <==> SomeBad(shadow, base, 8)
  {
    InGranule(base, 8, base + 7);
    if a :| base <= a < base + 8 && Bad(shadow, a) { InGranule(base, 8, a); }
    if shadow(base / 8) != 0 { assert Bad(shadow, base + 7); }
  }

  lemma TwoHalves(shadow: Shadow, base: int)
    ensures SomeBad(shadow, base, 16) <==> SomeBad(shadow, base, 8) || SomeBad(shadow, base + 8, 8)
  {
    if a :| base <= a < base + 16 && Bad(shadow, a) {
      assert a < base + 8 ==> SomeBad(shadow, base, 8);
    }
  }

  /** The scalar check is exact for every access that stays scalar at the alignment it is said to have. */
  lemma ScalarExact(shadow: Shadow, base: int, size: int, align: nat, strict: bool)
    requires Encoded(shadow) && size >= 1 && StaysScalar(size, align, strict)
    requires align >= 8 && align % 8 == 0 && PowerOfTwo(align / 8) && base % (align / 8) == 0
    ensures ScalarFires(shadow, base, size, align / 8) <==> SomeBad(shadow, base, size)
  {
    ScalarIsContained(base, size, align, strict);
    if align / 8 >= 8 {
      AlignedContained(base, 8, align / 8);
    }
    ContainedExact(shadow, base, size, align / 8);
  }

  /** Marks granule `g` only. */
  function Only(g: int): Shadow {
    x => if x == g then -1 else 0
  }

  /** With no alignment known a wider access also stays scalar; then the check is exact for every shadow if and only if the
      access is contained: otherwise it misses a bad byte past the granules it looks at. */
  lemma UnalignedExactIff(base: int, size: int)
    requires size in {1, 2, 4, 8, 16}
    ensures StaysScalar(size, 0, false)
    ensures (forall shadow: Shadow :: Encoded(shadow) ==> (ScalarFires(shadow, base, size, 0) <==> SomeBad(shadow, base, size)))
            <==> Contained(base, size)
  {
    if size > 1 { SmallPowers(size); }
    if Contained(base, size) {
      forall shadow: Shadow | Encoded(shadow) ensures ScalarFires(shadow, base, size, 0) <==> SomeBad(shadow, base, size) {
        ContainedExact(shadow, base, size, 0);
      }
    } else {
      PastIsMissed(base, size);
    }
  }

  lemma PastIsMissed(base: int, size: int)
    requires size in {1, 2, 4, 8, 16} && !Contained(base, size)
    ensures var shadow := Only((base + size - 1) / 8);
            Encoded(shadow) && !ScalarFires(shadow, base, size, 0) && SomeBad(shadow, base, size)
  {
    var last := base + size - 1;
    assert Bad(Only(last / 8), last);
    var q, r := base / 8, base % 8;
    assert base == 8 * q + r;
    assert last / 8 == if size == 16 then q + 2 else q + 1 by {
      assert last == 8 * q + (r + size - 1);
    }
  }

  // ----- Regions -----

  /** Every bad byte is one of at least `r` bad bytes in a row. */
  ghost predicate LongRuns(shadow: Shadow, r: int) {
    forall a :: Bad(shadow, a) ==> exists w :: w <= a < w + r && Run(shadow, w, r)
  }

  ghost predicate Run(shadow: Shadow, w: int, r: int) {
    forall x :: w <= x < w + r ==> Bad(shadow, x)
  }

  /** The check of a region fires exactly when its first or its last byte is bad. */
  lemma RegionMeaning(shadow: Shadow, base: int, len: nat, align: nat)
    requires align >= 8 ==> base % 8 == 0
    ensures RegionFires(shadow, base, len, align) <==> len > 0 && (Bad(shadow, base) || Bad(shadow, base + len - 1))
  {
  }

  /** If bad bytes come in runs of at least `r`, the check reports every region of at most `r + 1` bytes that has one, and no
      other. */
  lemma RegionComplete(shadow: Shadow, base: int, len: nat, align: nat, r: int)
    requires LongRuns(shadow, r) && len <= r + 1 && (align >= 8 ==> base % 8 == 0)
    ensures RegionFires(shadow, base, len, align) <==> SomeBad(shadow, base, len)
  {
    RegionMeaning(shadow, base, len, align);
    if a :| base <= a < base + len && Bad(shadow, a) {
      var w :| w <= a < w + r && Run(shadow, w, r);
      if w <= base {
        assert Bad(shadow, base);
      } else {
        assert Bad(shadow, base + len - 1);
      }
    }
  }

  /** Marks the granules from 1 to `m`. */
  function Band(m: int): Shadow {
    g => if 1 <= g <= m then -1 else 0
  }

  /** One byte more and a run of `r` bytes can be missed. */
  lemma RegionTight(m: int)
    requires m >= 1
    ensures var shadow, r := Band(m), 8 * m;
            && Encoded(shadow) && LongRuns(shadow, r)
            && !RegionFires(shadow, 7, r + 2, 1) && SomeBad(shadow, 7, r + 2)
  {
    var shadow, r := Band(m), 8 * m;
    forall a ensures Bad(shadow, a) <==> 8 <= a < 8 + r {
      assert a == 8 * (a / 8) + a % 8;
    }
    assert Run(shadow, 8, r);
    RegionMeaning(shadow, 7, r + 2, 1);
    assert Bad(shadow, 8);
  }

  // ----- The red zone of a global -----

  function RedZoneSize(size: nat): (r: nat)
    ensures r >= 32 && r < 64 && (size + r) % 32 == 0
  {
    var c := size % 32;
    RedZoneFits(size);
    if c != 0 then 64 - c else 32
  }

  lemma RedZoneFits(size: nat)
    ensures (size + 64 - size % 32) % 32 == 0 && (size % 32 == 0 ==> (size + 32) % 32 == 0)
  {
    var q := size / 32;
    assert size - size % 32 == 32 * q;
  }

  /** A global object: where it starts, on a red zone boundary, and how many bytes it has. */
  datatype Global = Global(start: int, size: nat) {
    function End(): int { start + size }

    function PaddedEnd(): int { End() + RedZoneSize(size) }

    /** Granule `q` holds some of the padding. */
    predicate Pads(q: int) { End() < 8 * q + 8 && 8 * q < PaddedEnd() }

    /** Its shadow: the bytes of the object it still has, or a mark. */
    function PadByte(q: int): int { if 8 * q < End() then End() - 8 * q else -1 }
  }

  /** The shadow marks the padding behind each of the globals, and nothing else. */
  ghost predicate Marked(shadow: Shadow, globals: seq<Global>) {
    && (forall i :: 0 <= i < |globals| ==> globals[i].start % 32 == 0)
    && (forall i, q :: 0 <= i < |globals| && globals[i].Pads(q) ==> shadow(q) == globals[i].PadByte(q))
    && (forall q :: shadow(q) != 0 ==> exists i :: 0 <= i < |globals| && globals[i].Pads(q))
  }

  /** A byte is bad exactly when it is in the padding of some global. */
  lemma PaddingIsBad(shadow: Shadow, globals: seq<Global>, a: int)
    requires Marked(shadow, globals)
    ensures Bad(shadow, a) <==> exists i :: 0 <= i < |globals| && globals[i].End() <= a < globals[i].PaddedEnd()
  {
    var q := a / 8;
    assert a == 8 * q + a % 8;
    forall i | 0 <= i < |globals| && globals[i].Pads(q)
      ensures Bad(shadow, a) <==> globals[i].End() <= a < globals[i].PaddedEnd()
    {
      PaddedAligned(globals[i]);
      EighthBelow(8 * q, globals[i].PaddedEnd());
      assert shadow(q) == globals[i].PadByte(q);
    }
    forall i | 0 <= i < |globals| && globals[i].End() <= a < globals[i].PaddedEnd() ensures globals[i].Pads(q) {
    }
  }

  lemma PaddedAligned(v: Global)
    requires v.start % 32 == 0
    ensures v.PaddedEnd() % 8 == 0
  {
    var k, j := v.start / 32, (v.size + RedZoneSize(v.size)) / 32;
    assert v.PaddedEnd() == 8 * (4 * k + 4 * j);
  }

  lemma EighthBelow(x: int, y: int)
    requires x % 8 == 0 && y % 8 == 0 && x < y
    ensures x + 8 <= y
  {
  }

  /** The padding of globals is long enough for the check of a region of up to 33 bytes to be exact. */
  lemma GlobalsRegionExact(shadow: Shadow, globals: seq<Global>, base: int, len: nat, align: nat)
    requires Marked(shadow, globals) && len <= 33 && (align >= 8 ==> base % 8 == 0)
    ensures LongRuns(shadow, 32)
    ensures RegionFires(shadow, base, len, align) <==> SomeBad(shadow, base, len)
  {
    forall a | Bad(shadow, a) ensures exists w :: w <= a < w + 32 && Run(shadow, w, 32) {
      PaddingIsBad(shadow, globals, a);
      var i :| 0 <= i < |globals| && globals[i].End() <= a < globals[i].PaddedEnd();
      PaddingRun(shadow, globals, i, a);
    }
    RegionComplete(shadow, base, len, align, 32);
  }

  lemma PaddingRun(shadow: Shadow, globals: seq<Global>, i: nat, a: int)
    requires Marked(shadow, globals) && i < |globals| && globals[i].End() <= a < globals[i].PaddedEnd()
    ensures exists w :: w <= a < w + 32 && Run(shadow, w, 32)
  {
    var w := if a < globals[i].PaddedEnd() - 32 then a else globals[i].PaddedEnd() - 32;
    forall x | w <= x < w + 32 ensures Bad(shadow, x) {
      PaddingIsBad(shadow, globals, x);
      assert globals[i].End() <= x < globals[i].PaddedEnd();
    }
    assert Run(shadow, w, 32);
  }
}
