/** The epilogue of a protected function: which stretches of shadow memory it clears. */
module AsanEpilogue {
  import opened Options
  import opened AsanBuffer
  import opened AsanFrame

  /** A stretch of `len` shadow bytes set to zero, from shadow position `start`. */
  datatype Clear = Clear(start: int, len: int)

  /** The stretches already cleared, and the one being gathered: `size` bytes of frame from offset `last` from the base, rounded
      up to `aligned`. */
  datatype Sweep = Sweep(last: int, size: int, aligned: int, clears: seq<Clear>)

  /** The part of the variable above the gap `l` that is counted at once, if it is among those unpoisoned at the end. */
  function Extra(offsets: seq<int>, handled: set<int>, l: nat): int
    requires 2 <= l <= |offsets|
  {
    if l > 2 && l / 2 - 2 in handled then Down16(offsets[l - 3] - offsets[l - 2]) else 0
  }

  function Step(offsets: seq<int>, handled: set<int>, l: nat, s: Sweep): Sweep
    requires 2 <= l <= |offsets|
  {
    var offset := Down32(offsets[l - 1] - Base(offsets));
    var gap := Down16(offsets[l - 2] - Base(offsets)) - offset;
    if s.last + s.aligned < offset then
      var size := gap + Extra(offsets, handled, l);
      Sweep(offset, size, Up32(size), s.clears + [Clear(s.last / 8, s.aligned / 8)])
    else
      var size := offset - s.last + gap + Extra(offsets, handled, l);
      Sweep(s.last, size, Up32(size), s.clears)
  }

  function Swept(offsets: seq<int>, handled: set<int>, l: nat): Sweep
    requires 2 <= |offsets| && l <= |offsets|
    decreases |offsets| - l
  {
    if l + 2 > |offsets| then Sweep(0, 0, 0, []) else Step(offsets, handled, l + 2, Swept(offsets, handled, l + 2))
  }

  /** Every stretch the epilogue clears. */
  function Cleared(offsets: seq<int>, handled: set<int>): seq<Clear>
    requires 2 <= |offsets|
  {
    var s := Swept(offsets, handled, 0);
    if s.aligned != 0 then s.clears + [Clear(s.last / 8, s.aligned / 8)] else s.clears
  }

  ghost predicate Covers(clears: seq<Clear>, g: int) {
    exists i :: 0 <= i < |clears| && clears[i].start <= g < clears[i].start + clears[i].len
  }

  /** Position `g` is cleared already or is in the stretch being gathered. */
  ghost predicate Held(s: Sweep, g: int) {
    Covers(s.clears, g) || s.last <= 8 * g < s.last + s.aligned
  }

  /** A granule of the variable above the gap `l`. */
  ghost predicate OfVariable(offsets: seq<int>, l: nat, g: int)
    requires 2 < l <= |offsets|
  {
    Down8(offsets[l - 2] - Base(offsets)) <= 8 * g < offsets[l - 3] - Base(offsets)
  }

  /** A granule the prologue asks to poison for the gap `l`. */
  ghost predicate OfGap(offsets: seq<int>, l: nat, g: int)
    requires 2 <= l <= |offsets|
  {
    Inside(offsets, l - 2, Base(offsets) + 8 * g)
  }

  // ----- The sweep -----

  /** The stretch being gathered ends at the gap just taken in, plus what of a variable was counted at once. */
  ghost predicate Sound(offsets: seq<int>, handled: set<int>, l: nat, s: Sweep)
    requires 2 <= |offsets| && l <= |offsets|
  {
    && s.last >= 0 && Windows(s.last) && s.size >= 0 && s.aligned == Up32(s.size)
    && (if l + 2 > |offsets| then s == Sweep(0, 0, 0, [])
        else s.last + s.size == offsets[l] - Base(offsets) + Extra(offsets, handled, l + 2))
    && TidyBelow(s.clears, s.last)
  }

  /** A whole number of red zones. */
  ghost predicate Windows(x: int) {
    x % 32 == 0
  }

  /** A whole number of the smallest red zones. */
  ghost predicate Halves(x: int) {
    x % 16 == 0
  }

  /** Stretches tidy up to the granule at `last`. */
  ghost predicate TidyBelow(clears: seq<Clear>, last: int) {
    Tidy(clears, last / 8)
  }

  /** Stretches of whole words, one after the other, up to `end`. */
  ghost predicate Tidy(clears: seq<Clear>, end: int) {
    && (forall i :: 0 <= i < |clears| ==> clears[i].start >= 0 && clears[i].start % 4 == 0 && clears[i].len >= 0 && clears[i].len % 4 == 0)
    && (forall i :: 0 <= i < |clears| ==> clears[i].start + clears[i].len <= end)
    && (forall i, j :: 0 <= i < j < |clears| ==> clears[i].start + clears[i].len <= clears[j].start)
  }

  lemma Rounded(x: int)
    requires x >= 0
    ensures x <= Up32(x) < x + 32 && Windows(Up32(x))
    ensures 0 <= Down32(x) <= x < Down32(x) + 32 && Windows(Down32(x))
    ensures x % 32 == 0 ==> Up32(x) == x
  {
    var q, u := x / 32, (x + 31) / 32;
    assert x == 32 * q + x % 32 && x + 31 == 32 * u + (x + 31) % 32;
    assert (32 * q) % 32 == 0 && (32 * u) % 32 == 0;
  }

  lemma Rounded16(x: int)
    requires x >= 0
    ensures 0 <= Down16(x) <= x < Down16(x) + 16 && Halves(Down16(x))
    ensures Halves(x) ==> Down16(x) == x
  {
    var q := x / 16;
    assert x == 16 * q + x % 16;
    assert (16 * q) % 16 == 0;
  }

  /** What the loop sees of the layout at the gap `l`. */
  lemma Around(offsets: seq<int>, handled: set<int>, l: nat)
    requires Layout(offsets) && 2 <= l <= |offsets| && l % 2 == 0
    ensures var lo, hi := offsets[l - 1] - Base(offsets), offsets[l - 2] - Base(offsets);
            && 0 <= lo <= hi <= offsets[0] - Base(offsets) && Halves(hi) && Down16(hi) == hi
            && 0 <= Extra(offsets, handled, l) && Halves(Extra(offsets, handled, l))
            && (l > 2 ==> hi + Extra(offsets, handled, l) <= offsets[l - 3] - Base(offsets) <= offsets[0] - Base(offsets))
            && (l < |offsets| ==> offsets[l] <= offsets[l - 1])
            && (l > 2 && l / 2 - 2 in handled ==> offsets[l - 3] - Base(offsets) < hi + Extra(offsets, handled, l) + 16)
  {
    assert offsets[|offsets| - 1] <= offsets[l - 1] <= offsets[l - 2] <= offsets[0];
    assert l > 2 ==> offsets[l - 2] <= offsets[l - 3] <= offsets[0];
    assert l < |offsets| ==> offsets[l] <= offsets[l - 1];
    assert Aligned(offsets, l - 2);
    assert Halves(offsets[l - 2] - Base(offsets)) && Halves(0);
    hide Down16, Halves, Layout, Aligned;
    Rounded16(offsets[l - 2] - Base(offsets));
    if l > 2 { Rounded16(offsets[l - 3] - offsets[l - 2]); }
  }

  lemma StepSound(offsets: seq<int>, handled: set<int>, l: nat, s: Sweep)
    requires Layout(offsets) && 2 <= l <= |offsets| && l % 2 == 0 && Sound(offsets, handled, l, s)
    ensures Sound(offsets, handled, l - 2, Step(offsets, handled, l, s))
  {
    hide Down32, Up32, Down16, Extra, Layout, Windows, Halves, TidyBelow;
    LayoutBasics(offsets);
    Around(offsets, handled, l);
    Rounded(offsets[l - 1] - Base(offsets));
    Rounded(s.size);
    StretchGrows(offsets, handled, l, s);
    TidyAppend(s.clears, s.last, s.aligned, Down32(offsets[l - 1] - Base(offsets)));
  }

  /** What has been gathered so far ends below the next gap. */
  lemma StretchGrows(offsets: seq<int>, handled: set<int>, l: nat, s: Sweep)
    requires Layout(offsets) && 2 <= l <= |offsets| && l % 2 == 0 && Sound(offsets, handled, l, s)
    ensures s.last + s.size <= offsets[l - 1] - Base(offsets)
  {
    hide Layout, Extra, TidyBelow, Up32, Windows, Halves;
    LayoutBasics(offsets);
    Around(offsets, handled, l);
    if l < |offsets| { Around(offsets, handled, l + 2); }
  }

  lemma TidyAppend(clears: seq<Clear>, last: int, aligned: int, end: int)
    requires TidyBelow(clears, last) && last >= 0 && Windows(last) && aligned >= 0 && Windows(aligned)
    ensures last + aligned <= end ==> TidyBelow(clears + [Clear(last / 8, aligned / 8)], end)
  {
    var a, b := last / 32, aligned / 32;
    Granule(last, a);
    Granule(aligned, b);
    if last + aligned <= end { assert 4 * a + 4 * b <= end / 8; }
  }

  lemma Granule(x: int, q: int)
    requires x == 32 * q
    ensures x / 8 == 4 * q && x / 8 % 4 == 0
  {
  }

  lemma {:induction false} SweptSound(offsets: seq<int>, handled: set<int>, l: nat)
    requires Layout(offsets) && l <= |offsets| && l % 2 == 0
    ensures Sound(offsets, handled, l, Swept(offsets, handled, l))
    decreases |offsets| - l
  {
    hide Step, Sound, Layout, Swept;
    LayoutBasics(offsets);
    if l < |offsets| {
      SweptSound(offsets, handled, l + 2);
      SweptUnfold(offsets, handled, l + 2);
      StepSound(offsets, handled, l + 2, Swept(offsets, handled, l + 2));
    } else {
      SoundStart(offsets, handled);
    }
  }

  lemma SoundStart(offsets: seq<int>, handled: set<int>)
    requires 2 <= |offsets|
    ensures Sound(offsets, handled, |offsets|, Swept(offsets, handled, |offsets|))
  {
    hide Extra, Step, Up32, Windows, TidyBelow;
    ZeroRounds();
    SweepStarts(offsets, handled);
  }

  lemma ZeroRounds()
    ensures Up32(0) == 0 && Windows(0) && TidyBelow([], 0)
  {
    assert 31 % 32 == 31;
  }

  lemma SweptUnfold(offsets: seq<int>, handled: set<int>, l: nat)
    requires 2 <= l <= |offsets|
    ensures Swept(offsets, handled, l - 2) == Step(offsets, handled, l, Swept(offsets, handled, l))
  {
    hide Step;
    assert l - 2 + 2 == l;
  }

  // ----- Nothing is left poisoned -----

  lemma CoversMore(clears: seq<Clear>, c: Clear, g: int)
    ensures Covers(clears + [c], g) <==> Covers(clears, g) || c.start <= g < c.start + c.len
  {
    var all := clears + [c];
    if Covers(clears, g) {
      var i :| 0 <= i < |clears| && clears[i].start <= g < clears[i].start + clears[i].len;
      assert all[i] == clears[i];
    }
    if c.start <= g < c.start + c.len { assert all[|clears|] == c; }
  }

  lemma Granules(last: int, aligned: int, g: int)
    requires last % 32 == 0 && aligned % 32 == 0
    ensures last / 8 <= g < last / 8 + aligned / 8 <==> last <= 8 * g < last + aligned
  {
    var a, b := last / 32, aligned / 32;
    assert last == 8 * (4 * a) && aligned == 8 * (4 * b);
    assert last / 8 == 4 * a && aligned / 8 == 4 * b;
  }

  /** The effect of one gap, written with the end of the gap. */
  lemma StepShape(offsets: seq<int>, handled: set<int>, l: nat, s: Sweep)
    requires Layout(offsets) && 2 <= l <= |offsets| && l % 2 == 0
    ensures var offset := Down32(offsets[l - 1] - Base(offsets));
            var reach := offsets[l - 2] - Base(offsets) + Extra(offsets, handled, l);
            Step(offsets, handled, l, s) ==
            if s.last + s.aligned < offset
            then Sweep(offset, reach - offset, Up32(reach - offset), s.clears + [Clear(s.last / 8, s.aligned / 8)])
            else Sweep(s.last, reach - s.last, Up32(reach - s.last), s.clears)
  {
    hide Layout, Extra, Down32, Up32;
    Around(offsets, handled, l);
  }

  /** What was held stays held. */
  lemma StepKeeps(offsets: seq<int>, handled: set<int>, l: nat, s: Sweep, g: int)
    requires Layout(offsets) && 2 <= l <= |offsets| && l % 2 == 0 && Sound(offsets, handled, l, s) && Held(s, g)
    ensures Held(Step(offsets, handled, l, s), g)
  {
    hide Down32, Up32, Extra, Layout, Covers, Step;
    Around(offsets, handled, l);
    Rounded(s.size);
    StretchGrows(offsets, handled, l, s);
    StepShape(offsets, handled, l, s);
    var t := Step(offsets, handled, l, s);
    CoversMore(s.clears, Clear(s.last / 8, s.aligned / 8), g);
    Granules(s.last, s.aligned, g);
    if t.last == s.last && t.clears == s.clears { UpGrows(s.size, t.size); }
  }

  /** One gap taken in is held from the start of its first window on, with what is counted of the variable above it. */
  lemma StepHolds(offsets: seq<int>, handled: set<int>, l: nat, s: Sweep, g: int)
    requires Layout(offsets) && 2 <= l <= |offsets| && l % 2 == 0 && Sound(offsets, handled, l, s)
    requires Down32(offsets[l - 1] - Base(offsets)) <= 8 * g < offsets[l - 2] - Base(offsets) + Extra(offsets, handled, l)
    ensures Held(Step(offsets, handled, l, s), g)
  {
    hide Up32, Extra, Layout, Covers, Down32, Step, Sound;
    StepBelow(offsets, handled, l, s);
    StepShape(offsets, handled, l, s);
    var t := Step(offsets, handled, l, s);
    Rounded(t.size);
  }

  /** The stretch being gathered never starts above the window a later gap starts in. */
  lemma StepBelow(offsets: seq<int>, handled: set<int>, l: nat, s: Sweep)
    requires Layout(offsets) && 2 <= l <= |offsets| && l % 2 == 0 && Sound(offsets, handled, l, s)
    ensures s.last <= Down32(offsets[l - 1] - Base(offsets))
  {
    hide Layout, Windows, Up32, Down32, TidyBelow, Extra;
    StretchGrows(offsets, handled, l, s);
    Multiple(s.last, offsets[l - 1] - Base(offsets));
  }

  lemma Multiple(x: int, y: int)
    requires Windows(x) && x <= y
    ensures x <= Down32(y)
  {
    var q, u := x / 32, y / 32;
    assert x == 32 * q && y == 32 * u + y % 32;
  }

  lemma UpGrows(x: int, y: int)
    requires x <= y
    ensures Up32(x) <= Up32(y)
  {
  }

  /** What is counted of a variable at once brings the stretch up to the variable's last window. */
  lemma VariableReached(offsets: seq<int>, handled: set<int>, l: nat, t: Sweep)
    requires Layout(offsets) && 2 < l <= |offsets| && l % 2 == 0 && l / 2 - 2 in handled
    requires Sound(offsets, handled, l - 2, t)
    ensures Down32(offsets[l - 3] - Base(offsets)) <= t.last + t.aligned
  {
    hide Layout, Extra, Up32, Down32, TidyBelow, Halves, Windows;
    Around(offsets, handled, l);
    LastWindow(offsets[l - 2] - Base(offsets), Extra(offsets, handled, l), offsets[l - 3] - Base(offsets), t.last, t.size);
  }

  lemma LastWindow(hi: int, extra: int, end: int, last: int, size: int)
    requires Halves(hi) && Halves(extra) && hi + extra <= end < hi + extra + 16
    requires last >= 0 && size >= 0 && last + size == hi + extra
    ensures Down32(end) <= last + Up32(size)
  {
    hide Up32, Down32;
    assert (hi + extra) % 16 == 0;
    SameWindowEnd(hi + extra, end);
    Rounded(size);
    Rounded(hi + extra);
  }

  lemma SameWindowEnd(u: int, end: int)
    requires u % 16 == 0 && u <= end < u + 16
    ensures Down32(end) == Down32(u)
  {
    var k := u / 16;
    var m, b := k / 2, k % 2;
    assert u == 16 * k && k == 2 * m + b;
    InWindow(u, m, 16 * b);
    InWindow(end, m, 16 * b + (end - u));
  }

  lemma InWindow(x: int, q: int, r: int)
    requires x == 32 * q + r && 0 <= r < 32
    ensures Down32(x) == 32 * q
  {
  }

  lemma {:induction false} GapHeld(offsets: seq<int>, handled: set<int>, l: nat, gap: nat, g: int)
    requires Layout(offsets) && l + 2 <= gap <= |offsets| && l % 2 == 0 && gap % 2 == 0 && OfGap(offsets, gap, g)
    ensures Held(Swept(offsets, handled, l), g)
    decreases gap - l
  {
    hide Held, Sound, Step, Layout, OfGap, Swept, Extra, Down32;
    LayoutBasics(offsets);
    SweptSound(offsets, handled, l + 2);
    SweptUnfold(offsets, handled, l + 2);
    var s := Swept(offsets, handled, l + 2);
    if gap == l + 2 {
      GapStart(offsets, handled, gap, g);
      StepHolds(offsets, handled, gap, s, g);
    } else {
      GapHeld(offsets, handled, l + 2, gap, g);
      StepKeeps(offsets, handled, l + 2, s, g);
    }
  }

  lemma GapStart(offsets: seq<int>, handled: set<int>, gap: nat, g: int)
    requires Layout(offsets) && 2 <= gap <= |offsets| && gap % 2 == 0 && OfGap(offsets, gap, g)
    ensures Down32(offsets[gap - 1] - Base(offsets)) <= 8 * g < offsets[gap - 2] - Base(offsets) + Extra(offsets, handled, gap)
  {
    hide Layout, Down32, Down8, Extra, Halves;
    Around(offsets, handled, gap);
    Down32Below8(offsets[gap - 1] - Base(offsets));
  }

  lemma Down32Below8(x: int)
    requires x >= 0
    ensures Down32(x) <= Down8(x)
  {
    var m, r := x / 32, x % 32;
    assert x % 8 == r % 8;
  }

  /** A handled variable is held once the gap above it is taken in too. */
  lemma {:induction false} VariableHeld(offsets: seq<int>, handled: set<int>, l: nat, gap: nat, g: int)
    requires Layout(offsets) && l + 4 <= gap <= |offsets| && l % 2 == 0 && gap % 2 == 0
    requires gap / 2 - 2 in handled && OfVariable(offsets, gap, g)
    ensures Held(Swept(offsets, handled, l), g)
    decreases gap - l
  {
    hide Held, Sound, Step, Layout, Extra, Down32, Swept, Down8, Halves;
    LayoutBasics(offsets);
    SweptSound(offsets, handled, l + 2);
    SweptUnfold(offsets, handled, l + 2);
    var s := Swept(offsets, handled, l + 2);
    if gap > l + 4 {
      VariableHeld(offsets, handled, l + 2, gap, g);
      StepKeeps(offsets, handled, l + 2, s, g);
    } else if 8 * g < Down32(offsets[gap - 3] - Base(offsets)) {
      LowerPart(offsets, handled, gap, g);
      StepKeeps(offsets, handled, l + 2, s, g);
    } else {
      Around(offsets, handled, l + 2);
      StepHolds(offsets, handled, l + 2, s, g);
    }
  }

  lemma LowerPart(offsets: seq<int>, handled: set<int>, gap: nat, g: int)
    requires Layout(offsets) && 4 <= gap <= |offsets| && gap % 2 == 0
    requires gap / 2 - 2 in handled && OfVariable(offsets, gap, g) && 8 * g < Down32(offsets[gap - 3] - Base(offsets))
    ensures Held(Swept(offsets, handled, gap - 2), g)
  {
    hide Sound, Extra, Down32, Covers, Swept, Up32, Down8, Layout;
    LayoutBasics(offsets);
    Around(offsets, handled, gap);
    Whole(offsets[gap - 2] - Base(offsets));
    SweptSound(offsets, handled, gap - 2);
    VariableReached(offsets, handled, gap, Swept(offsets, handled, gap - 2));
    StartsBelow(offsets, handled, gap);
  }

  lemma StartsBelow(offsets: seq<int>, handled: set<int>, gap: nat)
    requires Layout(offsets) && 2 <= gap <= |offsets| && gap % 2 == 0
    ensures Swept(offsets, handled, gap - 2).last <= offsets[gap - 2] - Base(offsets)
  {
    hide Sound, Layout, Extra, Step, Down32, Swept, Up32;
    LayoutBasics(offsets);
    Around(offsets, handled, gap);
    SweptSound(offsets, handled, gap);
    SweptUnfold(offsets, handled, gap);
    StepBelow(offsets, handled, gap, Swept(offsets, handled, gap));
    StepShape(offsets, handled, gap, Swept(offsets, handled, gap));
    Rounded(offsets[gap - 1] - Base(offsets));
  }

  lemma Whole(x: int)
    requires x % 16 == 0
    ensures Down8(x) == x
  {
  }

  lemma HeldIsCleared(offsets: seq<int>, handled: set<int>, g: int)
    requires Layout(offsets) && Held(Swept(offsets, handled, 0), g)
    ensures Covers(Cleared(offsets, handled), g)
  {
    hide Swept, Layout, Extra, Covers;
    LayoutBasics(offsets);
    SweptSound(offsets, handled, 0);
    var s := Swept(offsets, handled, 0);
    Rounded(s.size);
    Granules(s.last, s.aligned, g);
    CoversMore(s.clears, Clear(s.last / 8, s.aligned / 8), g);
  }

  // ----- Main results -----

  /** The epilogue clears every granule the prologue asked to poison and every granule of a handled variable. */
  lemma EpilogueClears(offsets: seq<int>, handled: set<int>, l: nat, g: int)
    requires Layout(offsets) && 2 <= l <= |offsets| && l % 2 == 0
    ensures OfGap(offsets, l, g) ==> Covers(Cleared(offsets, handled), g)
    ensures l > 2 && l / 2 - 2 in handled && OfVariable(offsets, l, g) ==> Covers(Cleared(offsets, handled), g)
  {
    hide Held, Swept, Covers, Layout;
    LayoutBasics(offsets);
    if OfGap(offsets, l, g) {
      GapHeld(offsets, handled, 0, l, g);
      HeldIsCleared(offsets, handled, g);
    } else if l > 2 && l / 2 - 2 in handled && OfVariable(offsets, l, g) {
      VariableHeld(offsets, handled, 0, l, g);
      HeldIsCleared(offsets, handled, g);
    }
  }

  /** It clears whole words, no position twice, and nothing beyond the frame rounded up to a red zone; so nothing outside a
      frame that is a whole number of red zones. */
  lemma EpilogueStaysInFrame(offsets: seq<int>, handled: set<int>)
    requires Layout(offsets)
    ensures Tidy(Cleared(offsets, handled), Up32(offsets[0] - Base(offsets)) / 8)
    ensures (offsets[0] - Base(offsets)) % 32 == 0 ==> Tidy(Cleared(offsets, handled), (offsets[0] - Base(offsets)) / 8)
  {
    hide Swept, Layout, Extra, Tidy, Sound, Up32;
    LayoutBasics(offsets);
    var frame := offsets[0] - Base(offsets);
    SweepEnds(offsets, handled);
    var s := Swept(offsets, handled, 0);
    TidyEnd(s.clears, s.last, s.size, frame);
  }

  lemma TidyEnd(clears: seq<Clear>, last: int, size: int, frame: int)
    requires last >= 0 && last % 32 == 0 && size >= 0 && last + size == frame && Tidy(clears, last / 8)
    ensures Tidy(clears, Up32(frame) / 8) && Tidy(clears + [Clear(last / 8, Up32(size) / 8)], Up32(frame) / 8)
    ensures frame % 32 == 0 ==> Up32(frame) == frame
  {
    hide Tidy, Up32;
    Rounded(size);
    Rounded(frame);
    SumRounds(last, size);
    TidyAppend(clears, last, Up32(size), Up32(frame));
    TidyMono(clears, last / 8, Up32(frame) / 8);
  }

  lemma SweepEnds(offsets: seq<int>, handled: set<int>)
    requires Layout(offsets)
    ensures var s := Swept(offsets, handled, 0);
            && s.last >= 0 && s.last % 32 == 0 && s.size >= 0 && s.aligned == Up32(s.size) && Tidy(s.clears, s.last / 8)
            && s.last + s.size == offsets[0] - Base(offsets)
  {
    hide Swept, Up32, Tidy, Extra;
    SweptSound(offsets, handled, 0);
    NoExtraOnTop(offsets, handled);
  }

  lemma NoExtraOnTop(offsets: seq<int>, handled: set<int>)
    requires |offsets| >= 2
    ensures Extra(offsets, handled, 2) == 0
  {
  }

  lemma SumRounds(x: int, y: int)
    requires x >= 0 && x % 32 == 0 && y >= 0
    ensures Up32(x + y) == x + Up32(y) && x / 8 <= Up32(x + y) / 8
  {
    var k := x / 32;
    assert x + y + 31 == 32 * k + (y + 31);
    assert (x + y + 31) % 32 == (y + 31) % 32;
  }

  lemma TidyMono(clears: seq<Clear>, end: int, limit: int)
    requires Tidy(clears, end) && end <= limit
    ensures Tidy(clears, limit)
  {
  }

  /** The frame is left clean: where the epilogue clears nothing, the prologue left no mark, and no handled variable lies. */
  lemma FrameLeftClean(big: bool, offsets: seq<int>, handled: set<int>, g: int)
    requires Layout(offsets) && !Covers(Cleared(offsets, handled), g)
    ensures Increasing(Base(offsets), Emitted(offsets, 0))
    ensures View(big, Run(big, Base(offsets), Emitted(offsets, 0)), g) in {None, Some(0)}
    ensures forall l :: 2 < l <= |offsets| && l % 2 == 0 && l / 2 - 2 in handled ==> !OfVariable(offsets, l, g)
  {
    hide Covers, Cleared, View, Run, Overtaken, Increasing, Emitted;
    var base, items := Base(offsets), Emitted(offsets, 0);
    EmittedAsked(offsets, 0);
    RunLeaves(big, base, items, g);
    forall l | 2 < l <= |offsets| && l % 2 == 0 && l / 2 - 2 in handled ensures !OfVariable(offsets, l, g) {
      EpilogueClears(offsets, handled, l, g);
    }
    forall i | 0 <= i < |items| ensures AsanBuffer.At(base, items, i) != g {
      ItemPosition(offsets, items, i);
      var m :| 0 <= m < |offsets| - 1 && m % 2 == 0 && Inside(offsets, m, items[i].offset);
      EpilogueClears(offsets, handled, m + 2, g);
    }
  }

  lemma ItemPosition(offsets: seq<int>, items: seq<Item>, i: int)
    requires |offsets| >= 2 && Increasing(Base(offsets), items) && 0 <= i < |items|
    ensures items[i].offset == Base(offsets) + 8 * AsanBuffer.At(Base(offsets), items, i)
  {
    IndexBack(Base(offsets), items[i].offset);
  }

  // ----- In place -----

  /** The loop over the gaps, with the shadow pointer `mem` moved to each stretch that is cleared. */
  method Epilogue(offsets: seq<int>, handled: set<int>) returns (clears: seq<Clear>)
    requires Layout(offsets)
    ensures clears == Cleared(offsets, handled)
  {
    hide Layout, Swept, Sound, Step, Down32, Up32, Down16, Extra;
    LayoutBasics(offsets);
    var base := Base(offsets);
    clears := [];
    var mem, prev, last, size, aligned := 0, base, base, 0, 0;
    var l := |offsets|;
    ghost var windows := 0;
    SweepStarts(offsets, handled);
    while l != 0
      invariant 0 <= l <= |offsets| && l % 2 == 0
      invariant Sweep(last - base, size, aligned, clears) == Swept(offsets, handled, l)
      invariant prev - base == 32 * windows && mem == 4 * windows
    {
      ghost var next := SweepMoves(offsets, handled, l);
      MemMoves(windows, next, last - prev, last - base);
      var cleared := last + aligned < base + Down32(offsets[l - 1] - base);
      if cleared {
        mem := mem + (last - prev) / 8;
        prev, windows := last, next;
        clears := clears + [Clear(mem, aligned / 8)];
      }
      last, size, aligned := Gather(offsets, handled, l, last, aligned, Swept(offsets, handled, l));
      l := l - 2;
    }
    if aligned != 0 {
      ghost var next := SweepStands(offsets, handled, 0);
      MemMoves(windows, next, last - prev, last - base);
      mem := mem + (last - prev) / 8;
      clears := clears + [Clear(mem, aligned / 8)];
    }
  }

  /** The stretch to gather once the gap `l` is taken in: a new one where the last one is cleared, or the last one extended. */
  method Gather(offsets: seq<int>, handled: set<int>, l: nat, last: int, aligned: int, ghost s: Sweep)
    returns (last': int, size: int, aligned': int)
    requires 2 <= l <= |offsets| && s.last == last - Base(offsets) && s.aligned == aligned
    ensures var t := Step(offsets, handled, l, s);
            && (last' - Base(offsets), size, aligned') == (t.last, t.size, t.aligned)
            && t.clears == if last + aligned < Base(offsets) + Down32(offsets[l - 1] - Base(offsets))
                           then s.clears + [Clear(s.last / 8, s.aligned / 8)] else s.clears
  {
    hide Down32, Down16, Up32, Extra;
    var base := Base(offsets);
    var offset := base + Down32(offsets[l - 1] - base);
    if last + aligned < offset {
      last', size := offset, 0;
    } else {
      last', size := last, offset - last;
    }
    size := size + (base + Down16(offsets[l - 2] - base) - offset);
    ExtraIs(offsets, handled, l);
    if l > 2 && l / 2 - 2 in handled {
      var whole := offsets[l - 3] - offsets[l - 2];
      size := size + Down16(whole);
    }
    aligned' := Up32(size);
  }

  lemma ExtraIs(offsets: seq<int>, handled: set<int>, l: nat)
    requires 2 <= l <= |offsets|
    ensures Extra(offsets, handled, l) == if l > 2 && l / 2 - 2 in handled then Down16(offsets[l - 3] - offsets[l - 2]) else 0
  {
  }

  lemma SweepStarts(offsets: seq<int>, handled: set<int>)
    requires 2 <= |offsets|
    ensures Swept(offsets, handled, |offsets|) == Sweep(0, 0, 0, [])
  {
  }

  lemma SweepStands(offsets: seq<int>, handled: set<int>, l: nat) returns (windows: int)
    requires Layout(offsets) && l <= |offsets| && l % 2 == 0
    ensures Swept(offsets, handled, l).last == 32 * windows
  {
    hide Layout, Windows, Up32, TidyBelow, Extra, Swept;
    LayoutBasics(offsets);
    SweptSound(offsets, handled, l);
    windows := WindowCount(Swept(offsets, handled, l).last);
  }

  lemma WindowCount(x: int) returns (windows: int)
    requires Windows(x)
    ensures x == 32 * windows
  {
    windows := x / 32;
  }

  lemma SweepMoves(offsets: seq<int>, handled: set<int>, l: nat) returns (windows: int)
    requires Layout(offsets) && 2 <= l <= |offsets| && l % 2 == 0
    ensures Swept(offsets, handled, l - 2) == Step(offsets, handled, l, Swept(offsets, handled, l))
    ensures Swept(offsets, handled, l).last == 32 * windows
  {
    hide *;
    LayoutBasics(offsets);
    windows := SweepStands(offsets, handled, l);
    SweptUnfold(offsets, handled, l);
  }

  lemma MemMoves(windows: int, next: int, distance: int, last: int)
    requires last == 32 * next && distance == last - 32 * windows
    ensures 4 * windows + distance / 8 == 4 * next == last / 8
  {
    assert distance == 8 * (4 * next - 4 * windows);
  }
}
