/** What the epilogue leaves alone: it clears no window of shadow memory that has nothing to clear in it. */
module AsanClean {
  import opened AsanFrame
  import opened AsanEpilogue

  /** Granule `g` was asked to be poisoned, or belongs to a handled variable. */
  ghost predicate Dirty(offsets: seq<int>, handled: set<int>, g: int) {
    exists l :: 2 <= l <= |offsets| && l % 2 == 0 && DirtyAt(offsets, handled, l, g)
  }

  ghost predicate DirtyAt(offsets: seq<int>, handled: set<int>, l: int, g: int)
    requires 2 <= l <= |offsets|
  {
    OfGap(offsets, l, g) || (l > 2 && l / 2 - 2 in handled && OfVariable(offsets, l, g))
  }

  /** Some granule of the window of four from `4 * k` is dirty. */
  ghost predicate DirtyWindow(offsets: seq<int>, handled: set<int>, k: int) {
    exists g :: 4 * k <= g < 4 * k + 4 && Dirty(offsets, handled, g)
  }

  lemma MakesDirty(offsets: seq<int>, handled: set<int>, l: nat, g: int, k: int)
    requires 2 <= l <= |offsets| && l % 2 == 0 && 4 * k <= g < 4 * k + 4 && DirtyAt(offsets, handled, l, g)
    ensures DirtyWindow(offsets, handled, k)
  {
    hide DirtyAt;
    assert Dirty(offsets, handled, g);
  }

  /** A granule of the range from `lo` to `hi` in the window at `32 * k`. */
  lemma GranuleInWindow(lo: int, hi: int, k: int) returns (g: int)
    requires 0 <= lo < hi && Down32(lo) <= 32 * k < hi
    ensures 4 * k <= g < 4 * k + 4 && Down8(lo) <= 8 * g < hi
  {
    hide Down32, Down8;
    Rounded(lo);
    InEighths(lo);
    g := if Down8(lo) <= 32 * k then 4 * k else Down8(lo) / 8;
  }

  /** Every window from that of a gap's start up to what is counted of it is dirty. */
  lemma WindowOfGap(offsets: seq<int>, handled: set<int>, l: nat, k: int)
    requires Layout(offsets) && Gapped(offsets) && 2 <= l <= |offsets| && l % 2 == 0
    requires Down32(offsets[l - 1] - Base(offsets)) <= 32 * k < offsets[l - 2] - Base(offsets) + Extra(offsets, handled, l)
    ensures DirtyWindow(offsets, handled, k)
  {
    hide Down32, Down16, Down8, Layout, DirtyWindow, Halves;
    AsanEpilogue.Around(offsets, handled, l);
    var lo, hi := offsets[l - 1] - Base(offsets), offsets[l - 2] - Base(offsets);
    assert offsets[l - 2 + 1] < offsets[l - 2];
    if 32 * k < hi {
      var g := GranuleInWindow(lo, hi, k);
      MakesDirty(offsets, handled, l, g, k);
    } else {
      InEighths(hi);
      MakesDirty(offsets, handled, l, 4 * k, k);
    }
  }

  lemma InEighths(x: int)
    ensures Down8(x) == 8 * (Down8(x) / 8) && Down8(x) <= x < Down8(x) + 8
  {
  }

  /** Everything held by the sweep is in a dirty window. */
  ghost predicate HoldsDirt(offsets: seq<int>, handled: set<int>, s: Sweep) {
    forall g :: Held(s, g) ==> DirtyWindow(offsets, handled, g / 4)
  }

  lemma StepHoldsDirt(offsets: seq<int>, handled: set<int>, l: nat, s: Sweep)
    requires Layout(offsets) && Gapped(offsets) && 2 <= l <= |offsets| && l % 2 == 0 && Sound(offsets, handled, l, s)
    requires HoldsDirt(offsets, handled, s)
    ensures HoldsDirt(offsets, handled, Step(offsets, handled, l, s))
  {
    hide Down32, Up32, Extra, Layout, Covers, Step, DirtyWindow, Gapped;
    var t := Step(offsets, handled, l, s);
    forall g | Held(t, g) ensures DirtyWindow(offsets, handled, g / 4) {
      if !Held(s, g) {
        NewlyHeld(offsets, handled, l, s, g);
        WindowOfGap(offsets, handled, l, g / 4);
      }
    }
  }

  /** What one gap adds is in windows of that gap. */
  lemma NewlyHeld(offsets: seq<int>, handled: set<int>, l: nat, s: Sweep, g: int)
    requires Layout(offsets) && 2 <= l <= |offsets| && l % 2 == 0 && Sound(offsets, handled, l, s)
    requires Held(Step(offsets, handled, l, s), g) && !Held(s, g)
    ensures Down32(offsets[l - 1] - Base(offsets)) <= 32 * (g / 4) < offsets[l - 2] - Base(offsets) + Extra(offsets, handled, l)
  {
    hide Down32, Up32, Extra, Layout, Covers, Step, TidyBelow;
    AsanEpilogue.Around(offsets, handled, l);
    StepShape(offsets, handled, l, s);
    var offset, reach := Down32(offsets[l - 1] - Base(offsets)), offsets[l - 2] - Base(offsets) + Extra(offsets, handled, l);
    CoversMore(s.clears, Clear(s.last / 8, s.aligned / 8), g);
    Rounded(s.size);
    Granules(s.last, s.aligned, g);
    Rounded(offsets[l - 1] - Base(offsets));
    var t := Step(offsets, handled, l, s);
    assert t.last <= 8 * g < t.last + t.aligned;
    StepBelow(offsets, handled, l, s);
    assert offset <= 8 * g;
    Rounded(t.size);
    WindowBelow(offset, reach, t.last, t.aligned, g);
  }

  lemma WindowBelow(offset: int, reach: int, last: int, aligned: int, g: int)
    requires Windows(offset) && Windows(last) && Windows(aligned) && offset <= 8 * g < last + aligned
    requires last + aligned < reach + 32
    ensures offset <= 32 * (g / 4) < reach
  {
    var a, b, c, k := offset / 32, last / 32, aligned / 32, g / 4;
    assert offset == 32 * a && last == 32 * b && aligned == 32 * c && g == 4 * k + g % 4;
  }

  lemma {:induction false} SweptHoldsDirt(offsets: seq<int>, handled: set<int>, l: nat)
    requires Layout(offsets) && Gapped(offsets) && l <= |offsets| && l % 2 == 0
    ensures HoldsDirt(offsets, handled, Swept(offsets, handled, l))
    decreases |offsets| - l
  {
    hide Step, Sound, Layout, Swept, HoldsDirt, Gapped;
    LayoutBasics(offsets);
    if l == |offsets| {
      NothingHeld(offsets, handled);
    } else {
      SweptHoldsDirt(offsets, handled, l + 2);
      SweptSound(offsets, handled, l + 2);
      SweptUnfold(offsets, handled, l + 2);
      StepHoldsDirt(offsets, handled, l + 2, Swept(offsets, handled, l + 2));
    }
  }

  lemma NothingHeld(offsets: seq<int>, handled: set<int>)
    requires 2 <= |offsets|
    ensures HoldsDirt(offsets, handled, Swept(offsets, handled, |offsets|))
  {
  }

  /** In frames where every variable is followed by a red zone, each position the epilogue clears is in a window of four with a
      granule that was asked to be poisoned or belongs to a handled variable. */
  lemma EpilogueClearsOnlyDirt(offsets: seq<int>, handled: set<int>, g: int)
    requires Layout(offsets) && Gapped(offsets) && Covers(Cleared(offsets, handled), g)
    ensures DirtyWindow(offsets, handled, g / 4)
  {
    hide Step, Layout, Swept, DirtyWindow, Gapped, Covers, TidyBelow;
    LayoutBasics(offsets);
    SweptHoldsDirt(offsets, handled, 0);
    SweptSound(offsets, handled, 0);
    var s := Swept(offsets, handled, 0);
    CoversMore(s.clears, Clear(s.last / 8, s.aligned / 8), g);
    Rounded(s.size);
    Granules(s.last, s.aligned, g);
    assert Held(s, g);
  }
}
