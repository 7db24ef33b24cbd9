/** Reading sampled profiles: nested function instances whose totals are kept up through a stack of those being read. */
module AutoFdoReader {

  // ----- The stream -----

  /** What a stream says of one function instance: its name, the counts by position, and the instances inlined at its call
      sites. */
  datatype Profile = Profile(name: nat, counts: seq<Position>, calls: seq<Site>)
  datatype Position = Position(offset: nat, count: int)
  datatype Site = Site(offset: nat, callee: Profile)

  /** The values of a stream in order; past its end zeros are read. */
  function Counter(stream: seq<int>, p: nat): int {
    if p < |stream| then stream[p] else 0
  }

  function Unsigned(stream: seq<int>, p: nat): nat {
    Counter(stream, p) % 0x1_0000_0000
  }

  function Remaining(stream: seq<int>, p: nat): nat {
    if p < |stream| then |stream| - p else 0
  }

  /** `n` positions from `p`, each with its offset, number of targets, count and targets; the next place to read. */
  function ParseCounts(stream: seq<int>, p: nat, n: nat): (r: (seq<Position>, nat))
    ensures r.1 >= p && |r.0| == n
    decreases n
  {
    if n == 0 then ([], p)
    else
      var offset := Unsigned(stream, p) / 0x1_0000 * 0x1_0000;
      var (rest, q) := ParseCounts(stream, p + 3 + 3 * Unsigned(stream, p + 1), n - 1);
      ([Position(offset, Counter(stream, p + 2))] + rest, q)
  }

  function Parse(stream: seq<int>, p: nat): (r: (Profile, nat))
    ensures r.1 >= p + 3
    decreases Remaining(stream, p), 0, 0
  {
    var (counts, q) := ParseCounts(stream, p + 3, Unsigned(stream, p + 1));
    var n := Unsigned(stream, p + 2);
    if n == 0 then (Profile(Unsigned(stream, p), counts, []), q)
    else
      var (calls, q') := ParseCalls(stream, q, n);
      (Profile(Unsigned(stream, p), counts, calls), q')
  }

  function ParseCalls(stream: seq<int>, p: nat, n: nat): (r: (seq<Site>, nat))
    ensures r.1 >= p && |r.0| == n
    decreases Remaining(stream, p), 1, n
  {
    if n == 0 then ([], p)
    else
      var (callee, q) := Parse(stream, p + 1);
      var (rest, q') := ParseCalls(stream, q, n - 1);
      ([Site(Unsigned(stream, p), callee)] + rest, q')
  }

  // ----- Instances -----

  /** A function instance as built.  The maps are lists of entries with distinct keys; a call site leads to the number of the
      instance inlined there. */
  datatype Instance = Instance(name: nat, head: int, total: int, counts: seq<(nat, int)>, calls: seq<((nat, nat), nat)>)

  /** The instances created so far, by number. */
  type Heap = seq<Instance>

  /** An entry replaced, or added where the key is new. */
  function Put<K(==), V>(m: seq<(K, V)>, k: K, v: V): seq<(K, V)> {
    if m == [] then [(k, v)]
    else if m[0].0 == k then [(k, v)] + m[1..]
    else [m[0]] + Put(m[1..], k, v)
  }

  /** `c` added to the totals of the first `k` instances on the stack. */
  function AddAll(heap: Heap, stack: seq<nat>, k: nat, c: int): (r: Heap)
    requires k <= |stack| && forall i :: 0 <= i < |stack| ==> stack[i] < |heap|
    ensures |r| == |heap|
  {
    if k == 0 then heap
    else
      var h := AddAll(heap, stack, k - 1, c);
      h[stack[k - 1] := h[stack[k - 1]].(total := h[stack[k - 1]].total + c)]
  }

  ghost predicate OnHeap(heap: Heap, stack: seq<nat>) {
    && (forall i :: 0 <= i < |stack| ==> stack[i] < |heap|)
    && (forall i, j :: 0 <= i < j < |stack| ==> stack[i] != stack[j])
  }

  /** The first `k` positions of instance `id`, the top of the stack, taken in. */
  function TakeCounts(heap: Heap, stack: seq<nat>, id: nat, counts: seq<Position>, k: nat): (r: Heap)
    requires OnHeap(heap, stack) && id < |heap| && k <= |counts|
    ensures |r| == |heap|
  {
    if k == 0 then heap
    else
      var h := TakeCounts(heap, stack, id, counts, k - 1);
      TakeCount(h, stack, id, counts[k - 1])
  }

  /** One position of instance `id` taken in. */
  function TakeCount(heap: Heap, stack: seq<nat>, id: nat, c: Position): (r: Heap)
    requires OnHeap(heap, stack) && id < |heap|
    ensures |r| == |heap|
  {
    AddAll(heap[id := heap[id].(counts := Put<nat, int>(heap[id].counts, c.offset, c.count))], stack, |stack|, c.count)
  }

  /** What reading a profile does to the instances while those on the stack are being read; the new one comes next in number. */
  function Build(heap: Heap, stack: seq<nat>, p: Profile, head: int): (r: Heap)
    requires OnHeap(heap, stack)
    ensures |r| > |heap|
    decreases p, 1
  {
    var id := |heap|;
    var h := TakeCounts(heap + [Instance(p.name, head, 0, [], [])], stack + [id], id, p.counts, |p.counts|);
    BuildCalls(h, stack + [id], id, p, |p.calls|)
  }

  function BuildCalls(heap: Heap, stack: seq<nat>, id: nat, p: Profile, k: nat): (r: Heap)
    requires OnHeap(heap, stack) && id < |heap| && k <= |p.calls|
    ensures |r| >= |heap|
    decreases p, 0, k
  {
    if k == 0 then heap
    else
      var h := BuildCalls(heap, stack, id, p, k - 1);
      var site := p.calls[k - 1];
      var h' := Build(h, stack, site.callee, 0);
      h'[id := h'[id].(calls := Put<(nat, nat), nat>(h'[id].calls, (site.offset, h'[|h|].name), |h|))]
  }

  // ----- What the totals are meant to be -----

  function SumCounts(counts: seq<Position>, k: nat): int
    requires k <= |counts|
  {
    if k == 0 then 0 else SumCounts(counts, k - 1) + counts[k - 1].count
  }

  /** All position counts in the profile and in those nested in it. */
  function Sum(p: Profile): int
    decreases p, 1
  {
    SumCounts(p.counts, |p.counts|) + SumCalls(p, |p.calls|)
  }

  function SumCalls(p: Profile, k: nat): int
    requires k <= |p.calls|
    decreases p, 0, k
  {
    if k == 0 then 0 else SumCalls(p, k - 1) + Sum(p.calls[k - 1].callee)
  }

  /** How many instances a profile creates. */
  function Size(p: Profile): (r: nat)
    ensures r >= 1
    decreases p, 1
  {
    1 + SizeCalls(p, |p.calls|)
  }

  function SizeCalls(p: Profile, k: nat): nat
    requires k <= |p.calls|
    decreases p, 0, k
  {
    if k == 0 then 0 else SizeCalls(p, k - 1) + Size(p.calls[k - 1].callee)
  }

  function PutCounts(counts: seq<Position>, k: nat): seq<(nat, int)>
    requires k <= |counts|
  {
    if k == 0 then [] else Put(PutCounts(counts, k - 1), counts[k - 1].offset, counts[k - 1].count)
  }

  /** The call sites of instance `id`: each leads to the instance of the last profile read for it. */
  function PutCalls(p: Profile, id: nat, k: nat): seq<((nat, nat), nat)>
    requires k <= |p.calls|
  {
    if k == 0 then []
    else Put<(nat, nat), nat>(PutCalls(p, id, k - 1), (p.calls[k - 1].offset, p.calls[k - 1].callee.name), id + 1 + SizeCalls(p, k - 1))
  }

  /** Instance `id` is the one of profile `p`: its total is the sum over the profile and all nested in it, and the instances of
      the nested profiles follow it, each in turn right. */
  ghost predicate Holds(heap: Heap, id: nat, p: Profile, head: int)
    decreases p, 1
  {
    && id < |heap|
    && heap[id] == Instance(p.name, head, Sum(p), PutCounts(p.counts, |p.counts|), PutCalls(p, id, |p.calls|))
    && HoldsCalls(heap, id, p, |p.calls|)
  }

  ghost predicate HoldsCalls(heap: Heap, id: nat, p: Profile, k: nat)
    requires k <= |p.calls|
    decreases p, 0, k
  {
    k == 0 || (HoldsCalls(heap, id, p, k - 1) && Holds(heap, id + 1 + SizeCalls(p, k - 1), p.calls[k - 1].callee, 0))
  }

  // ----- The stack keeps the totals -----

  lemma {:induction false} AddAllAdds(heap: Heap, stack: seq<nat>, k: nat, c: int, i: nat)
    requires OnHeap(heap, stack) && k <= |stack| && i < |heap|
    ensures AddAll(heap, stack, k, c)[i] == heap[i].(total := heap[i].total + if i in stack[..k] then c else 0)
    decreases k
  {
    if k == 0 {
    } else {
      AddAllAdds(heap, stack, k - 1, c, i);
      assert stack[..k] == stack[..k - 1] + [stack[k - 1]];
      if i == stack[k - 1] {
        assert i !in stack[..k - 1];
      }
    }
  }

  /** Taking in positions: the instance gets its map, and everything on the stack, the instance included, their sum. */
  lemma {:induction false} TakeCountsAdds(heap: Heap, stack: seq<nat>, id: nat, counts: seq<Position>, k: nat, i: nat)
    requires OnHeap(heap, stack) && id < |heap| && id in stack && heap[id].counts == [] && k <= |counts| && i < |heap|
    ensures TakeCounts(heap, stack, id, counts, k)[i] ==
            heap[i].(total := heap[i].total + (if i in stack then SumCounts(counts, k) else 0),
                     counts := if i == id then PutCounts(counts, k) else heap[i].counts)
    decreases k
  {
    if k == 0 {
    } else {
      TakeCountsAdds(heap, stack, id, counts, k - 1, i);
      TakeCountsAdds(heap, stack, id, counts, k - 1, id);
      var h := TakeCounts(heap, stack, id, counts, k - 1);
      var c := counts[k - 1];
      var h' := h[id := h[id].(counts := Put(h[id].counts, c.offset, c.count))];
      AddAllAdds(h', stack, |stack|, c.count, i);
      assert stack[..|stack|] == stack;
    }
  }

  /** The instances there before are the same but for the totals of those on the stack, which grow by `c`. */
  ghost predicate Added(heap: Heap, stack: seq<nat>, c: int, h: Heap) {
    && |heap| <= |h|
    && forall i :: 0 <= i < |heap| ==> h[i] == heap[i].(total := heap[i].total + if i in stack then c else 0)
  }

  /** What a change that keeps everything from `id` to `id + size` keeps. */
  ghost predicate SameRange(h: Heap, h': Heap, lo: nat, hi: nat) {
    hi <= |h| && hi <= |h'| && forall i :: lo <= i < hi ==> h'[i] == h[i]
  }

  lemma {:induction false} HoldsFrame(h: Heap, h': Heap, id: nat, p: Profile, head: int)
    requires Holds(h, id, p, head) && SameRange(h, h', id, id + Size(p))
    ensures Holds(h', id, p, head)
    decreases p, 1
  {
    HoldsCallsFrame(h, h', id, p, |p.calls|);
  }

  lemma {:induction false} HoldsCallsFrame(h: Heap, h': Heap, id: nat, p: Profile, k: nat)
    requires k <= |p.calls| && HoldsCalls(h, id, p, k) && SameRange(h, h', id + 1, id + 1 + SizeCalls(p, k))
    ensures HoldsCalls(h', id, p, k)
    decreases p, 0, k
  {
    if k == 0 {
    } else {
      HoldsCallsFrame(h, h', id, p, k - 1);
      HoldsFrame(h, h', id + 1 + SizeCalls(p, k - 1), p.calls[k - 1].callee, 0);
    }
  }

  // ----- Main results -----

  /** Reading a profile leaves every earlier instance as it was, except that the totals of those on the stack grow by the sum of
      the whole profile; the new instance and all nested in it have as totals the sums over their own profiles. */
  lemma {:induction false} BuildTotals(heap: Heap, stack: seq<nat>, p: Profile, head: int)
    requires OnHeap(heap, stack)
    ensures var r := Build(heap, stack, p, head);
            |r| == |heap| + Size(p) && Added(heap, stack, Sum(p), r) && Holds(r, |heap|, p, head)
    decreases p, 1
  {
    var id := |heap|;
    var start := heap + [Instance(p.name, head, 0, [], [])];
    var inner := stack + [id];
    var h := TakeCounts(start, inner, id, p.counts, |p.counts|);
    forall i | 0 <= i < |start|
      ensures h[i] == start[i].(total := start[i].total + (if i in inner then SumCounts(p.counts, |p.counts|) else 0),
                                counts := if i == id then PutCounts(p.counts, |p.counts|) else start[i].counts)
    {
      TakeCountsAdds(start, inner, id, p.counts, |p.counts|, i);
    }
    hide TakeCounts, SumCalls, SizeCalls, PutCalls, HoldsCalls, PutCounts, SumCounts;
    BuildCallsTotals(h, inner, id, p, |p.calls|);
  }

  /** The same for the first `k` call sites of the instance on top of the stack. */
  ghost predicate CallsTaken(heap: Heap, stack: seq<nat>, id: nat, p: Profile, k: nat, r: Heap)
    requires k <= |p.calls|
  {
    && |r| == |heap| + SizeCalls(p, k)
    && HoldsCalls(r, id, p, k)
    && (forall i :: 0 <= i < |heap| ==>
          r[i] == heap[i].(total := heap[i].total + (if i in stack then SumCalls(p, k) else 0),
                           calls := if i == id then PutCalls(p, id, k) else heap[i].calls))
  }

  lemma {:induction false} BuildCallsTotals(heap: Heap, stack: seq<nat>, id: nat, p: Profile, k: nat)
    requires OnHeap(heap, stack) && |heap| == id + 1 && id in stack && heap[id].calls == [] && k <= |p.calls|
    ensures CallsTaken(heap, stack, id, p, k, BuildCalls(heap, stack, id, p, k))
    decreases p, 0, k
  {
    if k == 0 {
    } else {
      BuildCallsTotals(heap, stack, id, p, k - 1);
      var h := BuildCalls(heap, stack, id, p, k - 1);
      BuildTotals(h, stack, p.calls[k - 1].callee, 0);
      CallsTakenStep(heap, stack, id, p, k, h, Build(h, stack, p.calls[k - 1].callee, 0));
    }
  }

  lemma CallsTakenStep(heap: Heap, stack: seq<nat>, id: nat, p: Profile, k: nat, h: Heap, h': Heap)
    requires OnHeap(heap, stack) && |heap| == id + 1 && id in stack && 0 < k <= |p.calls|
    requires CallsTaken(heap, stack, id, p, k - 1, h)
    requires var q := p.calls[k - 1].callee;
             |h'| == |h| + Size(q) && Added(h, stack, Sum(q), h') && Holds(h', |h|, q, 0)
    ensures CallsTaken(heap, stack, id, p, k,
                       h'[id := h'[id].(calls := Put<(nat, nat), nat>(h'[id].calls, (p.calls[k - 1].offset, h'[|h|].name), |h|))])
  {
    hide Holds, HoldsCalls, Sum, SumCalls, PutCalls, Size, SizeCalls, Put, Added, OnHeap, SameRange;
    var q := p.calls[k - 1].callee;
    assert h'[|h|].name == q.name by { HoldsName(h', |h|, q, 0); }
    var r := h'[id := h'[id].(calls := Put<(nat, nat), nat>(h'[id].calls, (p.calls[k - 1].offset, q.name), |h|))];
    OneMoreCall(p, id, k);
    RangesKept(heap, stack, id, h, h', r, Sum(q));
    HoldsCallsFrame(h, r, id, p, k - 1);
    HoldsFrame(h', r, |h|, q, 0);
    OneMoreHolds(r, id, p, k);
    forall i | 0 <= i < |heap|
      ensures r[i] == heap[i].(total := heap[i].total + (if i in stack then SumCalls(p, k) else 0),
                               calls := if i == id then PutCalls(p, id, k) else heap[i].calls)
    {
      AddedAt(h, stack, Sum(q), h', i);
    }
  }

  lemma AddedAt(heap: Heap, stack: seq<nat>, c: int, h: Heap, i: nat)
    requires Added(heap, stack, c, h) && i < |heap|
    ensures h[i] == heap[i].(total := heap[i].total + if i in stack then c else 0)
  {
  }

  /** Above the instance on top of the stack a nested read changes nothing that was there. */
  lemma RangesKept(heap: Heap, stack: seq<nat>, id: nat, h: Heap, h': Heap, r: Heap, c: int)
    requires OnHeap(heap, stack) && |heap| == id + 1 <= |h| && Added(h, stack, c, h')
    requires |r| == |h'| && forall i :: 0 <= i < |r| && i != id ==> r[i] == h'[i]
    ensures SameRange(h, r, id + 1, |h|) && SameRange(h', r, |h|, |h'|)
  {
    forall i | id + 1 <= i < |h| ensures r[i] == h[i] {
      assert i !in stack;
    }
  }

  lemma HoldsName(h: Heap, id: nat, q: Profile, head: int)
    requires Holds(h, id, q, head)
    ensures id < |h| && h[id].name == q.name
  {
  }

  lemma OneMoreCall(p: Profile, id: nat, k: nat)
    requires 0 < k <= |p.calls|
    ensures var site := p.calls[k - 1];
            && SumCalls(p, k) == SumCalls(p, k - 1) + Sum(site.callee)
            && SizeCalls(p, k) == SizeCalls(p, k - 1) + Size(site.callee)
            && PutCalls(p, id, k) == Put<(nat, nat), nat>(PutCalls(p, id, k - 1), (site.offset, site.callee.name), id + 1 + SizeCalls(p, k - 1))
  {
  }

  lemma OneMoreHolds(r: Heap, id: nat, p: Profile, k: nat)
    requires 0 < k <= |p.calls| && HoldsCalls(r, id, p, k - 1)
    requires Holds(r, id + 1 + SizeCalls(p, k - 1), p.calls[k - 1].callee, 0)
    ensures HoldsCalls(r, id, p, k)
  {
  }

  // ----- The annotated part -----

  /** The counts of instance `id` and of those nested in it that are marked. */
  function TotalAnnotated(heap: Heap, marked: (nat, nat) -> bool, id: nat): int
    requires id < |heap|
    decreases |heap| - id, 1
  {
    Through(heap, marked, id, heap[id].calls) + AnnotatedCounts(heap[id].counts, marked, id)
  }

  /** What a list of call sites of instance `id` adds. */
  function Through(heap: Heap, marked: (nat, nat) -> bool, id: nat, calls: seq<((nat, nat), nat)>): int
    requires id < |heap|
    decreases |heap| - id, 0, |calls|
  {
    if calls == [] then 0
    else Through(heap, marked, id, calls[1..]) + if id < calls[0].1 < |heap| then TotalAnnotated(heap, marked, calls[0].1) else 0
  }

  function AnnotatedCounts(counts: seq<(nat, int)>, marked: (nat, nat) -> bool, id: nat): int {
    if counts == [] then 0
    else (if marked(id, counts[0].0) then counts[0].1 else 0) + AnnotatedCounts(counts[1..], marked, id)
  }

  ghost predicate NonNegative(p: Profile)
    decreases p
  {
    && (forall i :: 0 <= i < |p.counts| ==> p.counts[i].count >= 0)
    && (forall i :: 0 <= i < |p.calls| ==> NonNegative(p.calls[i].callee))
  }

  lemma {:induction false} CountsBounded(counts: seq<(nat, int)>, marked: (nat, nat) -> bool, id: nat, k: nat, c: int)
    requires (forall i :: 0 <= i < |counts| ==> counts[i].1 >= 0) && c >= 0
    ensures var r := Put(counts, k, c);
            && (forall i :: 0 <= i < |r| ==> r[i].1 >= 0)
            && 0 <= AnnotatedCounts(counts, marked, id)
            && AnnotatedCounts(r, marked, id) <= AnnotatedCounts(counts, marked, id) + c
    decreases |counts|
  {
    if counts != [] {
      CountsBounded(counts[1..], marked, id, k, c);
      var r := Put(counts, k, c);
      if counts[0].0 == k {
        assert r[1..] == counts[1..];
      } else {
        assert r[1..] == Put(counts[1..], k, c);
      }
    } else {
      assert Put(counts, k, c)[1..] == [];
    }
  }

  /** The marked counts of one instance, duplicates overwritten, are at most all it was given. */
  lemma {:induction false} OwnCountsBounded(counts: seq<Position>, marked: (nat, nat) -> bool, id: nat, k: nat)
    requires k <= |counts| && forall i :: 0 <= i < |counts| ==> counts[i].count >= 0
    ensures var m := PutCounts(counts, k);
            && (forall i :: 0 <= i < |m| ==> m[i].1 >= 0)
            && 0 <= AnnotatedCounts(m, marked, id) <= SumCounts(counts, k)
  {
    if k == 0 {
    } else {
      OwnCountsBounded(counts, marked, id, k - 1);
      CountsBounded(PutCounts(counts, k - 1), marked, id, counts[k - 1].offset, counts[k - 1].count);
      CountsBounded(PutCounts(counts, k), marked, id, 0, 0);
    }
  }

  /** What one call site adds. */
  function Adds(heap: Heap, marked: (nat, nat) -> bool, id: nat, callee: nat): int
    requires id < |heap|
  {
    if id < callee < |heap| then TotalAnnotated(heap, marked, callee) else 0
  }

  ghost predicate AllAdd(heap: Heap, marked: (nat, nat) -> bool, id: nat, calls: seq<((nat, nat), nat)>)
    requires id < |heap|
  {
    forall i :: 0 <= i < |calls| ==> Adds(heap, marked, id, calls[i].1) >= 0
  }

  lemma {:induction false} ThroughPut(heap: Heap, marked: (nat, nat) -> bool, id: nat, calls: seq<((nat, nat), nat)>,
                                      key: (nat, nat), callee: nat)
    requires id < |heap| && AllAdd(heap, marked, id, calls) && Adds(heap, marked, id, callee) >= 0
    ensures var r := Put<(nat, nat), nat>(calls, key, callee);
            && AllAdd(heap, marked, id, r)
            && 0 <= Through(heap, marked, id, r) <= Through(heap, marked, id, calls) + Adds(heap, marked, id, callee)
            && 0 <= Through(heap, marked, id, calls)
    decreases |calls|
  {
    var r := Put<(nat, nat), nat>(calls, key, callee);
    if calls != [] {
      assert AllAdd(heap, marked, id, calls[1..]) by {
        forall i | 0 <= i < |calls| - 1 ensures Adds(heap, marked, id, calls[1..][i].1) >= 0 {
          assert calls[1..][i] == calls[i + 1];
        }
      }
      ThroughPut(heap, marked, id, calls[1..], key, callee);
      if calls[0].0 == key {
        assert r[1..] == calls[1..];
      } else {
        assert r[1..] == Put<(nat, nat), nat>(calls[1..], key, callee);
      }
      forall i | 0 <= i < |r| ensures Adds(heap, marked, id, r[i].1) >= 0 {
        if i > 0 { assert r[i] == r[1..][i - 1]; }
      }
    } else {
      assert r[1..] == [];
    }
  }

  /** Whatever is marked, the annotated total of an instance is at most its total, also where duplicate keys have overwritten
      entries of the maps. */
  lemma {:induction false} AnnotatedBelowSum(heap: Heap, marked: (nat, nat) -> bool, id: nat, p: Profile, head: int)
    requires Holds(heap, id, p, head) && NonNegative(p)
    ensures 0 <= TotalAnnotated(heap, marked, id) <= heap[id].total
    decreases p, 1
  {
    hide PutCounts, SumCounts, PutCalls, SumCalls, AnnotatedCounts;
    OwnCountsBounded(p.counts, marked, id, |p.counts|);
    CallsBounded(heap, marked, id, p, |p.calls|);
  }

  lemma {:induction false} CallsBounded(heap: Heap, marked: (nat, nat) -> bool, id: nat, p: Profile, k: nat)
    requires id < |heap| && NonNegative(p) && k <= |p.calls| && HoldsCalls(heap, id, p, k)
    ensures AllAdd(heap, marked, id, PutCalls(p, id, k))
    ensures 0 <= Through(heap, marked, id, PutCalls(p, id, k)) <= SumCalls(p, k)
    decreases p, 0, k
  {
    if k == 0 {
    } else {
      CallsBounded(heap, marked, id, p, k - 1);
      var site, callee := p.calls[k - 1], id + 1 + SizeCalls(p, k - 1);
      AnnotatedBelowSum(heap, marked, callee, site.callee, 0);
      ThroughPut(heap, marked, id, PutCalls(p, id, k - 1), (site.offset, site.callee.name), callee);
    }
  }

  /** For every stream, every stack of instances being read and every marking: the annotated total of an instance read is at most
      its total. */
  lemma AnnotatedBelowTotal(stream: seq<int>, at: nat, heap: Heap, stack: seq<nat>, head: int, marked: (nat, nat) -> bool)
    requires OnHeap(heap, stack) && NonNegative(Parse(stream, at).0)
    ensures var r := Build(heap, stack, Parse(stream, at).0, head);
            0 <= TotalAnnotated(r, marked, |heap|) <= r[|heap|].total
  {
    hide Parse, TotalAnnotated;
    var p := Parse(stream, at).0;
    BuildTotals(heap, stack, p, head);
    AnnotatedBelowSum(Build(heap, stack, p, head), marked, |heap|, p, head);
  }

  // ----- In place -----

  /** The reader: its place in the stream, the instances created, and those being read. */
  class Reader {
    const stream: seq<int>
    var pos: nat
    var heap: Heap
    var stack: seq<nat>

    constructor (stream: seq<int>)
      ensures this.stream == stream && pos == 0 && heap == [] && stack == []
    {
      this.stream, pos, heap, stack := stream, 0, [], [];
    }

    method ReadCounter() returns (v: int)
      modifies `pos
      ensures v == Counter(stream, old(pos)) && pos == old(pos) + 1
    {
      v := Counter(stream, pos);
      pos := pos + 1;
    }

    method ReadUnsigned() returns (v: nat)
      modifies `pos
      ensures v == Unsigned(stream, old(pos)) && pos == old(pos) + 1
    {
      v := Unsigned(stream, pos);
      pos := pos + 1;
    }

    /** Reads one instance and those nested in it.  The stack is as it was; every instance read has as its total the sum of the
        counts read for it and all nested in it, and that of each instance on the stack has grown by as much. */
    method ReadInstance(head: int) returns (id: nat)
      requires OnHeap(heap, stack)
      modifies `pos, `heap, `stack
      ensures pos == Parse(stream, old(pos)).1 && stack == old(stack) && id == |old(heap)|
      ensures heap == Build(old(heap), old(stack), Parse(stream, old(pos)).0, head) && OnHeap(heap, stack)
      ensures Added(old(heap), stack, Sum(Parse(stream, old(pos)).0), heap)
      ensures Holds(heap, id, Parse(stream, old(pos)).0, head)
      decreases Remaining(stream, pos), 0, 0
    {
      hide Holds, Added, Sum, TakeCounts, ParseCounts;
      ghost var p := Parse(stream, pos).0;
      BuildTotals(heap, stack, p, head);
      var name := ReadUnsigned();
      var n := ReadUnsigned();
      var m := ReadUnsigned();
      id := |heap|;
      heap := heap + [Instance(name, head, 0, [], [])];
      stack := stack + [id];
      ReadCounts(id, n, p.counts);
      if m != 0 {
        ReadCalls(id, m, p);
      }
      stack := stack[..|stack| - 1];
    }

    method ReadCounts(id: nat, n: nat, ghost counts: seq<Position>)
      requires OnHeap(heap, stack) && id < |heap| && counts == ParseCounts(stream, pos, n).0
      modifies `pos, `heap
      ensures pos == ParseCounts(stream, old(pos), n).1 && |heap| == |old(heap)|
      ensures heap == TakeCounts(old(heap), stack, id, counts, n)
    {
      hide TakeCount, Counter, Unsigned;
      assert |counts| == n && counts[0..] == counts;
      var i := 0;
      while i < n
        invariant i <= n == |counts| && |heap| == |old(heap)| && OnHeap(heap, stack)
        invariant ParseCounts(stream, pos, n - i) == (counts[i..], ParseCounts(stream, old(pos), n).1)
        invariant heap == TakeCounts(old(heap), stack, id, counts, i)
      {
        assert counts[i..][0] == counts[i] && counts[i..][1..] == counts[i + 1..];
        ReadCount(id);
        i := i + 1;
      }
    }

    /** Reads one position and passes over its targets. */
    method ReadCount(id: nat)
      requires OnHeap(heap, stack) && id < |heap|
      modifies `pos, `heap
      ensures pos == old(pos) + 3 + 3 * Unsigned(stream, old(pos) + 1)
      ensures var offset, count := Unsigned(stream, old(pos)) / 0x1_0000 * 0x1_0000, Counter(stream, old(pos) + 2);
              heap == TakeCount(old(heap), stack, id, Position(offset, count))
    {
      hide AddAll, Counter, Unsigned, Put;
      var raw := ReadUnsigned();
      var offset := raw / 0x1_0000 * 0x1_0000;
      var targets := ReadUnsigned();
      var count := ReadCounter();
      heap := heap[id := heap[id].(counts := Put<nat, int>(heap[id].counts, offset, count))];
      AddToStack(count);
      var j := 0;
      while j < targets
        invariant j <= targets && pos == old(pos) + 3 + 3 * j
        modifies `pos
      {
        pos := pos + 3;
        j := j + 1;
      }
    }

    /** Adds a count to the totals of everything on the stack. */
    method AddToStack(c: int)
      requires OnHeap(heap, stack)
      modifies `heap
      ensures heap == AddAll(old(heap), stack, |stack|, c)
    {
      var j := 0;
      while j < |stack|
        invariant j <= |stack| && |heap| == |old(heap)|
        invariant heap == AddAll(old(heap), stack, j, c)
      {
        heap := heap[stack[j] := heap[stack[j]].(total := heap[stack[j]].total + c)];
        j := j + 1;
      }
    }

    method ReadCalls(id: nat, n: nat, ghost p: Profile)
      requires OnHeap(heap, stack) && id < |heap| && p.calls == ParseCalls(stream, pos, n).0
      modifies `pos, `heap, `stack
      ensures pos == ParseCalls(stream, old(pos), n).1 && stack == old(stack) && |heap| >= |old(heap)|
      ensures heap == BuildCalls(old(heap), stack, id, p, n)
      decreases Remaining(stream, pos), 1, n
    {
      hide Build, Parse, Holds, Sum, Added, Put, Unsigned;
      var i := 0;
      while i < n
        invariant i <= n && stack == old(stack) && OnHeap(heap, stack) && |heap| >= |old(heap)| && pos >= old(pos)
        invariant ParseCalls(stream, pos, n - i) == (p.calls[i..], ParseCalls(stream, old(pos), n).1)
        invariant heap == BuildCalls(old(heap), stack, id, p, i)
      {
        assert p.calls[i..][0] == p.calls[i] && p.calls[i..][1..] == p.calls[i + 1..];
        var offset := ReadUnsigned();
        var callee := ReadInstance(0);
        heap := heap[id := heap[id].(calls := Put<(nat, nat), nat>(heap[id].calls, (offset, heap[callee].name), callee))];
        i := i + 1;
      }
    }
  }
}
