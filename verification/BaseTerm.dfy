/** Finding the base term of an address: a search through a possibly cyclic graph of values, which cuts the location list
    of every value it enters and puts the lists back at the end. */
module BaseTerm {
  import opened Options

  type ValueId = nat

  /** Address expressions.  `Modify` stands for the six auto-modify forms, `Truncate` and `Extend` for the conversions,
      `Sum` for both PLUS and MINUS, `Address` for the base value of an argument or of a stack register. */
  datatype Rtx =
    | Reg(n: nat) | Symbol(n: nat) | Label(n: nat) | Address(reg: int, argument: bool) | ConstInt(v: int)
    | High(x: Rtx) | Modify(x: Rtx) | Truncate(x: Rtx, narrow: bool) | Extend(x: Rtx) | LoSum(x: Rtx, y: Rtx)
    | Const(x: Rtx) | Sum(x: Rtx, y: Rtx) | And(x: Rtx, y: Rtx) | Value(id: ValueId) | Other
  {
    predicate IsConstant() { Symbol? || Label? || Const? || ConstInt? || High? }

    /** No sum occurs in the expression. */
    predicate SumFree() {
      match this
      case High(x) => x.SumFree()
      case Modify(x) => x.SumFree()
      case Truncate(x, _) => x.SumFree()
      case Extend(x) => x.SumFree()
      case LoSum(_, y) => y.SumFree()
      case Const(_) => false
      case Sum(_, _) => false
      case And(x, _) => x.SumFree()
      case _ => true
    }

    /** All values that the search can come to from here are among `reach`. */
    predicate Within(reach: set<ValueId>) {
      match this
      case High(x) => x.Within(reach)
      case Modify(x) => x.Within(reach)
      case Truncate(x, _) => x.Within(reach)
      case Extend(x) => x.Within(reach)
      case LoSum(_, y) => y.Within(reach)
      case Const(x) => x.Within(reach)
      case Sum(x, y) => x.Within(reach) && y.Within(reach)
      case And(x, _) => x.Within(reach)
      case Value(id) => id in reach
      case _ => true
    }
  }

  /** The facts the search consults: the base values of registers, which registers hold pointers, which values are based on
      the stack pointer, whether the target has one kind of pointer, the PIC register, and the conversion of constant
      addresses. */
  datatype Facts = Facts(regBase: nat -> Option<Rtx>, isPointer: nat -> bool, spBased: ValueId -> bool, spBase: Rtx,
                         onePointerMode: bool, pic: Option<nat>, convert: Rtx -> Rtx)

  /** The locations of each value: expressions known to have the same value. */
  type Locs = map<ValueId, seq<Rtx>>

  function At(locs: Locs, id: ValueId): seq<Rtx> {
    if id in locs then locs[id] else []
  }

  /** The values that still have locations. */
  function Live(locs: Locs): set<ValueId> {
    set id | id in locs && locs[id] != []
  }

  function Cut(locs: Locs, id: ValueId): Locs {
    if id in locs then locs[id := []] else locs
  }

  predicate KnownBase(x: Rtx) {
    x.Label? || x.Symbol? || (x.Address? && !x.argument)
  }

  predicate IsPointerReg(fx: Facts, x: Rtx) {
    x.Reg? && fx.isPointer(x.n)
  }

  /** A constant addressed relative to the PIC register. */
  predicate ViaPic(fx: Facts, a: Rtx, b: Rtx) {
    a.Reg? && fx.pic == Some(a.n) && b.IsConstant()
  }

  /** The operands of a sum in the order they are searched. */
  function Ordered(fx: Facts, a: Rtx, b: Rtx): (Rtx, Rtx) {
    if IsPointerReg(fx, a) then (a, b)
    else if IsPointerReg(fx, b) || (b.IsConstant() && !b.ConstInt?) then (b, a)
    else (a, b)
  }

  function Converted(fx: Facts, base: Rtx): Rtx {
    if base.IsConstant() then fx.convert(base) else base
  }

  /** A base found in operand `x` of a sum is that of the sum. */
  predicate Accepted(fx: Facts, x: Rtx, base: Option<Rtx>) {
    base.Some? && (IsPointerReg(fx, x) || KnownBase(base.value))
  }

  /** `after` is `before` with some location lists cut. */
  ghost predicate Trimmed(before: Locs, after: Locs) {
    before.Keys == after.Keys && forall id :: id in before ==> after[id] == before[id] || after[id] == []
  }

  lemma TrimmedLive(before: Locs, after: Locs)
    requires Trimmed(before, after)
    ensures |Live(after)| <= |Live(before)|
  {
    assert Live(after) <= Live(before);
    SubsetSize(Live(after), Live(before));
  }

  lemma {:induction false} SubsetSize(a: set<ValueId>, b: set<ValueId>)
    requires a <= b
    ensures |a| <= |b|
  {
    assert b == a + (b - a);
  }

  lemma CutLive(locs: Locs, id: ValueId)
    requires At(locs, id) != []
    ensures |Live(Cut(locs, id))| < |Live(locs)|
    ensures Trimmed(locs, Cut(locs, id))
  {
    assert Live(Cut(locs, id)) == Live(locs) - {id};
  }

  /** The locations and the list of values entered so far with the lists that were cut. */
  datatype Search = Search(locs: Locs, visited: seq<(ValueId, seq<Rtx>)>)

  /** A location that only leads back to the value `x` it was found at. */
  predicate LeadsBack(locs: Locs, loc: Rtx, x: Rtx) {
    loc.Value? && At(locs, loc.id) == [x]
  }

  function Find(fx: Facts, s: Search, x: Rtx): (r: (Option<Rtx>, Search))
    ensures Trimmed(s.locs, r.1.locs)
    decreases |Live(s.locs)|, 1, x
  {
    match x
    case Reg(n) => (fx.regBase(n), s)
    case Symbol(_) => (Some(x), s)
    case Label(_) => (Some(x), s)
    case High(y) => Find(fx, s, y)
    case Modify(y) => Find(fx, s, y)
    case Truncate(y, narrow) => if !fx.onePointerMode || narrow then (None, s) else Find(fx, s, y)
    case Extend(y) =>
      if !fx.onePointerMode then (None, s)
      else
        var (base, s') := Find(fx, s, y);
        (if base.Some? then Some(Converted(fx, base.value)) else None, s')
    case LoSum(_, y) => Find(fx, s, y)
    case Const(Sum(a, b)) => FindSum(fx, s, a, b)
    case Sum(a, b) => FindSum(fx, s, a, b)
    case And(y, ConstInt(v)) => if v != 0 then Find(fx, s, y) else (None, s)
    case Value(id) =>
      if fx.spBased(id) then (Some(fx.spBase), s)
      else if At(s.locs, id) == [] then (None, s)
      else
        CutLive(s.locs, id);
        var f := At(s.locs, id);
        FindList(fx, Search(Cut(s.locs, id), s.visited + [(id, f)]), x, f)
    case _ => (None, s)
  }

  function FindSum(fx: Facts, s: Search, a: Rtx, b: Rtx): (r: (Option<Rtx>, Search))
    ensures Trimmed(s.locs, r.1.locs)
    decreases |Live(s.locs)|, 1, Sum(a, b), 0
  {
    if ViaPic(fx, a, b) then Find(fx, s, b)
    else
      var (first, second) := Ordered(fx, a, b);
      var (base, s') := Find(fx, s, first);
      if Accepted(fx, first, base) then (base, s')
      else
        TrimmedLive(s.locs, s'.locs);
        var (base', s'') := Find(fx, s', second);
        (if Accepted(fx, second, base') then base' else None, s'')
  }

  /** Searches the locations of value `x` one after the other. */
  function FindList(fx: Facts, s: Search, x: Rtx, list: seq<Rtx>): (r: (Option<Rtx>, Search))
    ensures Trimmed(s.locs, r.1.locs)
    decreases |Live(s.locs)|, 2, list
  {
    if list == [] then (None, s)
    else if LeadsBack(s.locs, list[0], x) then FindList(fx, s, x, list[1..])
    else
      var (base, s') := Find(fx, s, list[0]);
      if base.Some? then (base, s')
      else
        TrimmedLive(s.locs, s'.locs);
        FindList(fx, s', x, list[1..])
  }

  // ----- Restoring the locations -----

  /** Every value whose list was cut is on the visited list, with its list as it was in `start`. */
  ghost predicate Recorded(start: Locs, s: Search) {
    && Trimmed(start, s.locs)
    && (forall k :: 0 <= k < |s.visited| ==> s.visited[k].0 in start && s.visited[k].1 == start[s.visited[k].0])
    && (forall id :: id in start && s.locs[id] != start[id] ==> exists k :: 0 <= k < |s.visited| && s.visited[k].0 == id)
  }

  function Restore(locs: Locs, visited: seq<(ValueId, seq<Rtx>)>): Locs
    decreases visited
  {
    if visited == [] then locs else Restore(locs[visited[0].0 := visited[0].1], visited[1..])
  }

  lemma {:induction false} FindRecords(fx: Facts, start: Locs, s: Search, x: Rtx)
    requires Recorded(start, s)
    ensures Recorded(start, Find(fx, s, x).1)
    decreases |Live(s.locs)|, 1, x
  {
    hide Recorded, Trimmed;
    match x
    case High(y) => FindRecords(fx, start, s, y);
    case Modify(y) => FindRecords(fx, start, s, y);
    case Truncate(y, _) => FindRecords(fx, start, s, y);
    case Extend(y) => FindRecords(fx, start, s, y);
    case LoSum(_, y) => FindRecords(fx, start, s, y);
    case Const(Sum(a, b)) => FindSumRecords(fx, start, s, a, b);
    case Sum(a, b) => FindSumRecords(fx, start, s, a, b);
    case And(y, _) => FindRecords(fx, start, s, y);
    case Value(id) =>
      if !fx.spBased(id) && At(s.locs, id) != [] {
        var f := At(s.locs, id);
        CutLive(s.locs, id);
        EnterRecorded(start, s, id);
        FindListRecords(fx, start, Search(Cut(s.locs, id), s.visited + [(id, f)]), x, f);
      }
    case _ =>
  }

  lemma {:induction false} FindSumRecords(fx: Facts, start: Locs, s: Search, a: Rtx, b: Rtx)
    requires Recorded(start, s)
    ensures Recorded(start, FindSum(fx, s, a, b).1)
    decreases |Live(s.locs)|, 1, Sum(a, b), 0
  {
    hide Recorded, Trimmed;
    if ViaPic(fx, a, b) {
      FindRecords(fx, start, s, b);
    } else {
      var (first, second) := Ordered(fx, a, b);
      FindRecords(fx, start, s, first);
      var s' := Find(fx, s, first).1;
      TrimmedLive(s.locs, s'.locs);
      FindRecords(fx, start, s', second);
    }
  }

  lemma {:induction false} FindListRecords(fx: Facts, start: Locs, s: Search, x: Rtx, list: seq<Rtx>)
    requires Recorded(start, s)
    ensures Recorded(start, FindList(fx, s, x, list).1)
    decreases |Live(s.locs)|, 2, list
  {
    hide Recorded, Trimmed;
    if list == [] {
    } else {
      if LeadsBack(s.locs, list[0], x) {
        FindListRecords(fx, start, s, x, list[1..]);
      } else {
        FindRecords(fx, start, s, list[0]);
        var s' := Find(fx, s, list[0]).1;
        TrimmedLive(s.locs, s'.locs);
        FindListRecords(fx, start, s', x, list[1..]);
      }
    }
  }

  lemma EnterRecorded(start: Locs, s: Search, id: ValueId)
    requires Recorded(start, s) && At(s.locs, id) != []
    ensures Recorded(start, Search(Cut(s.locs, id), s.visited + [(id, At(s.locs, id))]))
  {
    var t := Search(Cut(s.locs, id), s.visited + [(id, At(s.locs, id))]);
    forall v | v in start && t.locs[v] != start[v]
      ensures exists k :: 0 <= k < |t.visited| && t.visited[k].0 == v
    {
      if v == id {
        assert t.visited[|s.visited|].0 == v;
      } else {
        var k :| 0 <= k < |s.visited| && s.visited[k].0 == v;
        assert t.visited[k].0 == v;
      }
    }
  }

  lemma {:induction false} RestoreRecorded(start: Locs, locs: Locs, visited: seq<(ValueId, seq<Rtx>)>)
    requires Recorded(start, Search(locs, visited))
    ensures Restore(locs, visited) == start
    decreases visited
  {
    if visited == [] {
    } else {
      var next := Search(locs[visited[0].0 := visited[0].1], visited[1..]);
      forall id | id in start && next.locs[id] != start[id]
        ensures exists k :: 0 <= k < |next.visited| && next.visited[k].0 == id
      {
        var k :| 0 <= k < |visited| && visited[k].0 == id;
        assert k != 0;
        assert next.visited[k - 1].0 == id;
      }
      RestoreRecorded(start, next.locs, next.visited);
    }
  }

  /** Whatever the graph of values, cyclic or not, the search ends, and undoing what it recorded gives back every list. */
  lemma SearchUndone(fx: Facts, locs: Locs, x: Rtx)
    ensures var s := Find(fx, Search(locs, []), x).1;
            Restore(s.locs, s.visited) == locs
  {
    FindRecords(fx, locs, Search(locs, []), x);
    var s := Find(fx, Search(locs, []), x).1;
    RestoreRecorded(locs, s.locs, s.visited);
  }

  // ----- What a found base means -----

  /** `base` is a base of `x` reached through at most `n` values none of which is in `cut`.  No list is changed and no order
      is fixed: any location of a value and any operand of a sum may be followed. */
  ghost predicate Derives(fx: Facts, locs: Locs, cut: set<ValueId>, x: Rtx, base: Rtx, n: nat)
    decreases n, x
  {
    match x
    case Reg(r) => fx.regBase(r) == Some(base)
    case Symbol(_) => base == x
    case Label(_) => base == x
    case High(y) => Derives(fx, locs, cut, y, base, n)
    case Modify(y) => Derives(fx, locs, cut, y, base, n)
    case Truncate(y, narrow) => fx.onePointerMode && !narrow && Derives(fx, locs, cut, y, base, n)
    case Extend(y) => fx.onePointerMode && exists b :: Derives(fx, locs, cut, y, b, n) && base == Converted(fx, b)
    case LoSum(_, y) => Derives(fx, locs, cut, y, base, n)
    case Const(Sum(a, b)) =>
      (Derives(fx, locs, cut, b, base, n) && (ViaPic(fx, a, b) || Accepted(fx, b, Some(base))))
      || (!ViaPic(fx, a, b) && Derives(fx, locs, cut, a, base, n) && Accepted(fx, a, Some(base)))
    case Sum(a, b) =>
      (Derives(fx, locs, cut, b, base, n) && (ViaPic(fx, a, b) || Accepted(fx, b, Some(base))))
      || (!ViaPic(fx, a, b) && Derives(fx, locs, cut, a, base, n) && Accepted(fx, a, Some(base)))
    case And(y, ConstInt(v)) => v != 0 && Derives(fx, locs, cut, y, base, n)
    case Value(id) =>
      if fx.spBased(id) then base == fx.spBase
      else n > 0 && id !in cut && exists k :: 0 <= k < |At(locs, id)| && Derives(fx, locs, cut, At(locs, id)[k], base, n - 1)
    case _ => false
  }

  ghost predicate HasBase(fx: Facts, locs: Locs, cut: set<ValueId>, x: Rtx) {
    exists base: Rtx, n: nat :: Derives(fx, locs, cut, x, base, n)
  }

  /** A base that is found is a base in the graph as it was. */
  lemma {:induction false} FoundSound(fx: Facts, start: Locs, s: Search, x: Rtx) returns (n: nat)
    requires Trimmed(start, s.locs)
    ensures Find(fx, s, x).0.Some? ==> Derives(fx, start, {}, x, Find(fx, s, x).0.value, n)
    decreases |Live(s.locs)|, 1, x
  {
    hide Trimmed;
    n := 0;
    match x
    case High(y) => n := FoundSound(fx, start, s, y);
    case Modify(y) => n := FoundSound(fx, start, s, y);
    case Truncate(y, _) => n := FoundSound(fx, start, s, y);
    case Extend(y) => n := FoundSound(fx, start, s, y);
    case LoSum(_, y) => n := FoundSound(fx, start, s, y);
    case Const(Sum(a, b)) => n := FoundSumSound(fx, start, s, a, b);
    case Sum(a, b) => n := FoundSumSound(fx, start, s, a, b);
    case And(y, _) => n := FoundSound(fx, start, s, y);
    case Value(id) =>
      if !fx.spBased(id) && At(s.locs, id) != [] {
        var f := At(s.locs, id);
        CutLive(s.locs, id);
        TrimmedAt(start, s.locs, id);
        TrimmedTrans(start, s.locs, Cut(s.locs, id));
        var k, m := FoundListSound(fx, start, Search(Cut(s.locs, id), s.visited + [(id, f)]), x, f);
        n := m + 1;
      }
    case _ =>
  }

  lemma {:induction false} FoundSumSound(fx: Facts, start: Locs, s: Search, a: Rtx, b: Rtx) returns (n: nat)
    requires Trimmed(start, s.locs)
    ensures FindSum(fx, s, a, b).0.Some? ==> Derives(fx, start, {}, Sum(a, b), FindSum(fx, s, a, b).0.value, n)
    decreases |Live(s.locs)|, 1, Sum(a, b), 0
  {
    hide Trimmed;
    if ViaPic(fx, a, b) {
      n := FoundSound(fx, start, s, b);
    } else {
      var (first, second) := Ordered(fx, a, b);
      n := FoundSound(fx, start, s, first);
      var (base, s') := Find(fx, s, first);
      if !Accepted(fx, first, base) {
        TrimmedLive(s.locs, s'.locs);
        TrimmedTrans(start, s.locs, s'.locs);
        n := FoundSound(fx, start, s', second);
      }
    }
  }

  lemma {:induction false} FoundListSound(fx: Facts, start: Locs, s: Search, x: Rtx, list: seq<Rtx>) returns (k: nat, n: nat)
    requires Trimmed(start, s.locs)
    ensures var base := FindList(fx, s, x, list).0;
            base.Some? ==> k < |list| && Derives(fx, start, {}, list[k], base.value, n)
    decreases |Live(s.locs)|, 2, list
  {
    hide Trimmed;
    k, n := 0, 0;
    if list == [] {
    } else {
      if LeadsBack(s.locs, list[0], x) {
        k, n := FoundListSound(fx, start, s, x, list[1..]);
        k := k + 1;
      } else {
        n := FoundSound(fx, start, s, list[0]);
        var (base, s') := Find(fx, s, list[0]);
        if base.None? {
          TrimmedLive(s.locs, s'.locs);
          TrimmedTrans(start, s.locs, s'.locs);
          k, n := FoundListSound(fx, start, s', x, list[1..]);
          k := k + 1;
        }
      }
    }
  }

  lemma TrimmedTrans(a: Locs, b: Locs, c: Locs)
    requires Trimmed(a, b) && Trimmed(b, c)
    ensures Trimmed(a, c)
  {
  }

  lemma TrimmedAt(start: Locs, locs: Locs, id: ValueId)
    requires Trimmed(start, locs) && At(locs, id) != []
    ensures At(start, id) == At(locs, id)
  {
  }
}
