/** What the maps of a function instance hold where keys repeat, and what the annotated total adds up, in terms of the profile. */
module AutoFdoStored {
  import opened AutoFdoReader

  // ----- Maps filled from a list -----

  /** The first `n` pairs put into a map one after the other. */
  function PutAll<K(==), V>(pairs: seq<(K, V)>, n: nat): seq<(K, V)>
    requires n <= |pairs|
  {
    if n == 0 then [] else Put(PutAll(pairs, n - 1), pairs[n - 1].0, pairs[n - 1].1)
  }

  /** Among the first `n` pairs none after `i` has its key. */
  predicate LastOf<K(==), V>(pairs: seq<(K, V)>, n: nat, i: nat)
    requires i < n <= |pairs|
  {
    forall j :: i < j < n ==> pairs[j].0 != pairs[i].0
  }

  predicate DistinctKeys<K(==), V>(m: seq<(K, V)>) {
    forall i, j :: 0 <= i < j < |m| ==> m[i].0 != m[j].0
  }

  lemma {:induction false} PutHolds<K, V>(m: seq<(K, V)>, k: K, v: V, x: K, y: V)
    requires DistinctKeys(m)
    ensures DistinctKeys(Put(m, k, v))
    ensures (x, y) in Put(m, k, v) <==> if x == k then y == v else (x, y) in m
    decreases |m|
  {
    if m == [] {
    } else {
      PutHolds(m[1..], k, v, x, y);
      var r := Put(m, k, v);
      assert m == [m[0]] + m[1..];
      if m[0].0 == k {
        forall i | 0 < i < |m| ensures m[i].0 != k { assert m[0].0 != m[i].0; }
        assert r[1..] == m[1..];
      } else {
        assert r == [m[0]] + Put(m[1..], k, v);
        PutKeys(m[1..], k, v);
        forall i | 0 < i < |m| ensures m[i].0 != m[0].0 { }
        DistinctCons(m[0], Put(m[1..], k, v));
      }
    }
  }

  lemma {:induction false} PutKeys<K, V>(m: seq<(K, V)>, k: K, v: V)
    ensures forall i :: 0 <= i < |Put(m, k, v)| ==>
              Put(m, k, v)[i].0 == k || exists j :: 0 <= j < |m| && m[j].0 == Put(m, k, v)[i].0
    decreases |m|
  {
    if m == [] {
    } else {
      PutKeys(m[1..], k, v);
      var r := Put(m, k, v);
      forall i | 0 <= i < |r| ensures r[i].0 == k || exists j :: 0 <= j < |m| && m[j].0 == r[i].0 {
        if i == 0 {
          assert m[0].0 == r[0].0;
        } else if m[0].0 == k {
          assert r[i] == m[i];
        } else {
          assert r[i] == Put(m[1..], k, v)[i - 1];
          if r[i].0 != k {
            var j :| 0 <= j < |m[1..]| && m[1..][j].0 == r[i].0;
            assert m[j + 1].0 == r[i].0;
          }
        }
      }
    }
  }

  lemma DistinctCons<K, V>(e: (K, V), m: seq<(K, V)>)
    requires DistinctKeys(m) && forall i :: 0 <= i < |m| ==> m[i].0 != e.0
    ensures DistinctKeys([e] + m)
  {
  }

  /** A map filled from a list has each key of the list once, with the value that came last. */
  lemma {:induction false} LastIsStored<K, V>(pairs: seq<(K, V)>, n: nat, x: K, y: V)
    requires n <= |pairs|
    ensures DistinctKeys(PutAll(pairs, n))
    ensures (x, y) in PutAll(pairs, n) <==> exists i :: 0 <= i < n && pairs[i] == (x, y) && LastOf(pairs, n, i)
  {
    if n == 0 {
    } else {
      LastIsStored(pairs, n - 1, x, y);
      var (k, v) := pairs[n - 1];
      PutHolds(PutAll(pairs, n - 1), k, v, x, y);
      if (x, y) in PutAll(pairs, n) {
        if x == k {
          assert pairs[n - 1] == (x, y) && LastOf(pairs, n, n - 1);
        } else {
          var i :| 0 <= i < n - 1 && pairs[i] == (x, y) && LastOf(pairs, n - 1, i);
          assert LastOf(pairs, n, i);
        }
      }
      if i :| 0 <= i < n && pairs[i] == (x, y) && LastOf(pairs, n, i) {
        if i < n - 1 {
          assert pairs[n - 1].0 != pairs[i].0;
          assert LastOf(pairs, n - 1, i);
        }
      }
    }
  }

  // ----- Sums over maps -----

  function SumOver<K, V>(m: seq<(K, V)>, w: (K, V) -> int): int {
    if m == [] then 0 else w(m[0].0, m[0].1) + SumOver(m[1..], w)
  }

  /** The weights of those of the first `k` pairs that are the last of the first `n` with their key. */
  function LastSum<K(==), V>(pairs: seq<(K, V)>, n: nat, k: nat, w: (K, V) -> int): int
    requires k <= n <= |pairs|
  {
    if k == 0 then 0
    else LastSum(pairs, n, k - 1, w) + if LastOf(pairs, n, k - 1) then w(pairs[k - 1].0, pairs[k - 1].1) else 0
  }

  /** What the entry of a key weighs, if there is one. */
  function Weighs<K(==), V>(m: seq<(K, V)>, k: K, w: (K, V) -> int): int {
    if m == [] then 0 else if m[0].0 == k then w(k, m[0].1) else Weighs(m[1..], k, w)
  }

  lemma {:induction false} SumPut<K, V>(m: seq<(K, V)>, k: K, v: V, w: (K, V) -> int)
    ensures SumOver(Put(m, k, v), w) == SumOver(m, w) - Weighs(m, k, w) + w(k, v)
    decreases |m|
  {
    var r := Put(m, k, v);
    if m == [] {
      assert r[1..] == [];
    } else {
      SumPut(m[1..], k, v, w);
      assert r[1..] == if m[0].0 == k then m[1..] else Put(m[1..], k, v);
    }
  }

  lemma {:induction false} WeighsPut<K, V>(m: seq<(K, V)>, k: K, v: V, x: K, w: (K, V) -> int)
    ensures Weighs(Put(m, k, v), x, w) == if x == k then w(k, v) else Weighs(m, x, w)
    decreases |m|
  {
    var r := Put(m, k, v);
    if m == [] {
      assert r[1..] == [];
    } else {
      WeighsPut(m[1..], k, v, x, w);
      assert r[1..] == if m[0].0 == k then m[1..] else Put(m[1..], k, v);
    }
  }

  /** The weight of the last of the first `n` pairs with key `x`. */
  function LastWeight<K(==), V>(pairs: seq<(K, V)>, n: nat, x: K, w: (K, V) -> int): int
    requires n <= |pairs|
  {
    if n == 0 then 0 else if pairs[n - 1].0 == x then w(x, pairs[n - 1].1) else LastWeight(pairs, n - 1, x, w)
  }

  lemma {:induction false} StoredWeight<K, V>(pairs: seq<(K, V)>, n: nat, x: K, w: (K, V) -> int)
    requires n <= |pairs|
    ensures Weighs(PutAll(pairs, n), x, w) == LastWeight(pairs, n, x, w)
  {
    if n == 0 {
    } else {
      StoredWeight(pairs, n - 1, x, w);
      WeighsPut(PutAll(pairs, n - 1), pairs[n - 1].0, pairs[n - 1].1, x, w);
    }
  }

  /** One more pair takes the place of the last one with its key. */
  lemma {:induction false} LastSumStep<K, V>(pairs: seq<(K, V)>, n: nat, k: nat, w: (K, V) -> int)
    requires k <= n < |pairs|
    ensures LastSum(pairs, n + 1, k, w) ==
            LastSum(pairs, n, k, w) - if NoneBetween(pairs, k, n, pairs[n].0) then LastWeight(pairs, k, pairs[n].0, w) else 0
  {
    if k == 0 {
    } else {
      LastSumStep(pairs, n, k - 1, w);
      var x, y := pairs[n].0, pairs[k - 1].0;
      assert LastOf(pairs, n + 1, k - 1) <==> LastOf(pairs, n, k - 1) && y != x by {
        if LastOf(pairs, n, k - 1) && y != x {
          forall j | k - 1 < j < n + 1 ensures pairs[j].0 != y { }
        }
        if LastOf(pairs, n + 1, k - 1) { assert pairs[n].0 != y; }
      }
      if y == x {
        assert LastOf(pairs, n, k - 1) <==> NoneBetween(pairs, k, n, x);
        assert !NoneBetween(pairs, k - 1, n, x);
      } else {
        assert NoneBetween(pairs, k - 1, n, x) <==> NoneBetween(pairs, k, n, x);
      }
    }
  }

  predicate NoneBetween<K(==), V>(pairs: seq<(K, V)>, k: nat, n: nat, x: K)
    requires k <= n <= |pairs|
  {
    forall j :: k <= j < n ==> pairs[j].0 != x
  }

  /** The sum over a map filled from a list is that over the last pair for each key. */
  lemma {:induction false} SumIsLastSum<K, V>(pairs: seq<(K, V)>, n: nat, w: (K, V) -> int)
    requires n <= |pairs|
    ensures SumOver(PutAll(pairs, n), w) == LastSum(pairs, n, n, w)
  {
    if n == 0 {
    } else {
      SumIsLastSum(pairs, n - 1, w);
      var (k, v) := pairs[n - 1];
      SumPut(PutAll(pairs, n - 1), k, v, w);
      StoredWeight(pairs, n - 1, k, w);
      LastSumStep(pairs, n - 1, n - 1, w);
      assert LastOf(pairs, n, n - 1) && NoneBetween(pairs, n - 1, n - 1, k);
    }
  }

  // ----- The maps of an instance -----

  function CountPairs(p: Profile): (r: seq<(nat, int)>)
    ensures |r| == |p.counts|
  {
    seq(|p.counts|, i requires 0 <= i < |p.counts| => (p.counts[i].offset, p.counts[i].count))
  }

  function SitePairs(p: Profile, id: nat): (r: seq<((nat, nat), nat)>)
    ensures |r| == |p.calls|
  {
    seq(|p.calls|, i requires 0 <= i < |p.calls| => ((p.calls[i].offset, p.calls[i].callee.name), id + 1 + SizeCalls(p, i)))
  }

  lemma {:induction false} CountsPutAll(p: Profile, k: nat)
    requires k <= |p.counts|
    ensures PutCounts(p.counts, k) == PutAll(CountPairs(p), k)
  {
    if k == 0 {
    } else {
      CountsPutAll(p, k - 1);
    }
  }

  lemma {:induction false} SitesPutAll(p: Profile, id: nat, k: nat)
    requires k <= |p.calls|
    ensures PutCalls(p, id, k) == PutAll(SitePairs(p, id), k)
  {
    if k == 0 {
    } else {
      SitesPutAll(p, id, k - 1);
    }
  }

  /** No later position of the profile has the offset of position `i`. */
  predicate LastCount(p: Profile, i: nat)
    requires i < |p.counts|
  {
    forall j :: i < j < |p.counts| ==> p.counts[j].offset != p.counts[i].offset
  }

  /** No later call site of the profile has the offset and the callee's name of site `i`. */
  predicate LastSite(p: Profile, i: nat)
    requires i < |p.calls|
  {
    forall j :: i < j < |p.calls| ==> p.calls[j].offset != p.calls[i].offset || p.calls[j].callee.name != p.calls[i].callee.name
  }

  /** An instance holds, for each offset of its profile, the count read last for it, and for each call site and callee the instance
      read last for it. */
  lemma MapsHoldLast(heap: Heap, id: nat, p: Profile, head: int)
    requires Holds(heap, id, p, head)
    ensures DistinctKeys(heap[id].counts) && DistinctKeys(heap[id].calls)
    ensures forall o: nat, c :: (o, c) in heap[id].counts <==>
              exists i :: 0 <= i < |p.counts| && p.counts[i] == Position(o, c) && LastCount(p, i)
    ensures forall o: nat, name: nat, callee: nat :: ((o, name), callee) in heap[id].calls <==>
              exists i :: && 0 <= i < |p.calls| && p.calls[i].offset == o && p.calls[i].callee.name == name
                          && callee == id + 1 + SizeCalls(p, i) && LastSite(p, i)
  {
    hide PutAll, Sum, SumCalls, HoldsCalls;
    CountsPutAll(p, |p.counts|);
    SitesPutAll(p, id, |p.calls|);
    LastIsStored(CountPairs(p), |p.counts|, 0, 0);
    LastIsStored(SitePairs(p, id), |p.calls|, (0, 0), 0);
    forall o: nat, c ensures (o, c) in heap[id].counts <==>
                        exists i :: 0 <= i < |p.counts| && p.counts[i] == Position(o, c) && LastCount(p, i) {
      CountHeld(p, o, c);
    }
    forall o: nat, name: nat, callee: nat
      ensures ((o, name), callee) in heap[id].calls <==>
              exists i :: && 0 <= i < |p.calls| && p.calls[i].offset == o && p.calls[i].callee.name == name
                          && callee == id + 1 + SizeCalls(p, i) && LastSite(p, i)
    {
      SiteHeld(p, id, o, name, callee);
    }
  }

  lemma CountHeld(p: Profile, o: nat, c: int)
    ensures (o, c) in PutAll(CountPairs(p), |p.counts|) <==>
            exists i :: 0 <= i < |p.counts| && p.counts[i] == Position(o, c) && LastCount(p, i)
  {
    hide PutAll;
    var pairs, n := CountPairs(p), |p.counts|;
    LastIsStored(pairs, n, o, c);
    forall i | 0 <= i < n ensures LastOf(pairs, n, i) == LastCount(p, i) {
      SameLastCount(p, i);
    }
    if i :| 0 <= i < n && pairs[i] == (o, c) && LastOf(pairs, n, i) {
      assert p.counts[i] == Position(o, c) && LastCount(p, i);
    }
    if i :| 0 <= i < n && p.counts[i] == Position(o, c) && LastCount(p, i) {
      assert pairs[i] == (o, c) && LastOf(pairs, n, i);
    }
  }

  lemma SameLastCount(p: Profile, i: nat)
    requires i < |p.counts|
    ensures LastOf(CountPairs(p), |p.counts|, i) == LastCount(p, i)
  {
    var pairs := CountPairs(p);
    if LastOf(pairs, |p.counts|, i) {
      forall j | i < j < |p.counts| ensures p.counts[j].offset != p.counts[i].offset { assert pairs[j].0 != pairs[i].0; }
    }
  }

  lemma SameLastSite(p: Profile, id: nat, i: nat)
    requires i < |p.calls|
    ensures LastOf(SitePairs(p, id), |p.calls|, i) == LastSite(p, i)
  {
    var pairs := SitePairs(p, id);
    if LastOf(pairs, |p.calls|, i) {
      forall j | i < j < |p.calls|
        ensures p.calls[j].offset != p.calls[i].offset || p.calls[j].callee.name != p.calls[i].callee.name
      {
        assert pairs[j].0 != pairs[i].0;
      }
    }
  }

  lemma SiteHeld(p: Profile, id: nat, o: nat, name: nat, callee: nat)
    ensures ((o, name), callee) in PutAll(SitePairs(p, id), |p.calls|) <==>
            exists i :: && 0 <= i < |p.calls| && p.calls[i].offset == o && p.calls[i].callee.name == name
                        && callee == id + 1 + SizeCalls(p, i) && LastSite(p, i)
  {
    hide PutAll, SizeCalls;
    var pairs, n := SitePairs(p, id), |p.calls|;
    LastIsStored(pairs, n, (o, name), callee);
    forall i | 0 <= i < n ensures LastOf(pairs, n, i) == LastSite(p, i) {
      SameLastSite(p, id, i);
    }
    if i :| 0 <= i < n && pairs[i] == ((o, name), callee) && LastOf(pairs, n, i) {
      assert p.calls[i].offset == o && callee == id + 1 + SizeCalls(p, i) && LastSite(p, i);
    }
    if i :| && 0 <= i < n && p.calls[i].offset == o && p.calls[i].callee.name == name
            && callee == id + 1 + SizeCalls(p, i) && LastSite(p, i) {
      assert pairs[i] == ((o, name), callee) && LastOf(pairs, n, i);
    }
  }

  // ----- The annotated total -----

  /** The marked counts of a profile and of those nested in it: the last for each offset, and the last for each call site and
      callee.  Instances are numbered as they are read. */
  function MarkedSum(p: Profile, id: nat, marked: (nat, nat) -> bool): int
    decreases p, 1
  {
    MarkedCounts(p, id, marked, |p.counts|) + MarkedSites(p, id, marked, |p.calls|)
  }

  function MarkedCounts(p: Profile, id: nat, marked: (nat, nat) -> bool, k: nat): int
    requires k <= |p.counts|
  {
    if k == 0 then 0
    else MarkedCounts(p, id, marked, k - 1)
         + if LastCount(p, k - 1) && marked(id, p.counts[k - 1].offset) then p.counts[k - 1].count else 0
  }

  function MarkedSites(p: Profile, id: nat, marked: (nat, nat) -> bool, k: nat): int
    requires k <= |p.calls|
    decreases p, 0, k
  {
    if k == 0 then 0
    else MarkedSites(p, id, marked, k - 1)
         + if LastSite(p, k - 1) then MarkedSum(p.calls[k - 1].callee, id + 1 + SizeCalls(p, k - 1), marked) else 0
  }

  function CountWeight(marked: (nat, nat) -> bool, id: nat): (nat, int) -> int {
    (k: nat, v: int) => if marked(id, k) then v else 0
  }

  function SiteWeight(heap: Heap, marked: (nat, nat) -> bool, id: nat): ((nat, nat), nat) -> int
    requires id < |heap|
  {
    (k: (nat, nat), callee: nat) => Adds(heap, marked, id, callee)
  }

  lemma {:induction false} CountsWeighed(m: seq<(nat, int)>, marked: (nat, nat) -> bool, id: nat)
    ensures AnnotatedCounts(m, marked, id) == SumOver(m, CountWeight(marked, id))
    decreases |m|
  {
    if m == [] {
    } else {
      CountsWeighed(m[1..], marked, id);
    }
  }

  lemma {:induction false} SitesWeighed(heap: Heap, marked: (nat, nat) -> bool, id: nat, m: seq<((nat, nat), nat)>)
    requires id < |heap|
    ensures Through(heap, marked, id, m) == SumOver(m, SiteWeight(heap, marked, id))
    decreases |m|
  {
    if m == [] {
    } else {
      SitesWeighed(heap, marked, id, m[1..]);
    }
  }

  lemma {:induction false} LastSumCounts(p: Profile, id: nat, marked: (nat, nat) -> bool, k: nat)
    requires k <= |p.counts|
    ensures LastSum(CountPairs(p), |p.counts|, k, CountWeight(marked, id)) == MarkedCounts(p, id, marked, k)
  {
    if k == 0 {
    } else {
      LastSumCounts(p, id, marked, k - 1);
      SameLastCount(p, k - 1);
    }
  }

  /** The annotated total of an instance is the sum of the marked counts of its profile and of those nested in it. */
  lemma {:induction false} AnnotatedIsMarkedSum(heap: Heap, marked: (nat, nat) -> bool, id: nat, p: Profile, head: int)
    requires Holds(heap, id, p, head)
    ensures TotalAnnotated(heap, marked, id) == MarkedSum(p, id, marked)
    decreases p, 1
  {
    hide PutAll, SumOver, LastSum, MarkedCounts, MarkedSites, AnnotatedCounts, Through, HoldsCalls;
    CountsPutAll(p, |p.counts|);
    SitesPutAll(p, id, |p.calls|);
    CountsWeighed(heap[id].counts, marked, id);
    SitesWeighed(heap, marked, id, heap[id].calls);
    SumIsLastSum(CountPairs(p), |p.counts|, CountWeight(marked, id));
    SumIsLastSum(SitePairs(p, id), |p.calls|, SiteWeight(heap, marked, id));
    LastSumCounts(p, id, marked, |p.counts|);
    LastSumSites(heap, marked, id, p, |p.calls|);
  }

  lemma {:induction false} LastSumSites(heap: Heap, marked: (nat, nat) -> bool, id: nat, p: Profile, k: nat)
    requires id < |heap| && k <= |p.calls| && HoldsCalls(heap, id, p, k)
    ensures LastSum(SitePairs(p, id), |p.calls|, k, SiteWeight(heap, marked, id)) == MarkedSites(p, id, marked, k)
    decreases p, 0, k
  {
    if k == 0 {
    } else {
      LastSumSites(heap, marked, id, p, k - 1);
      SameLastSite(p, id, k - 1);
      AnnotatedIsMarkedSum(heap, marked, id + 1 + SizeCalls(p, k - 1), p.calls[k - 1].callee, 0);
    }
  }

  /** With nothing marked it is 0. */
  lemma {:induction false} NothingMarked(p: Profile, id: nat, marked: (nat, nat) -> bool)
    requires forall i: nat, o: nat :: !marked(i, o)
    ensures MarkedSum(p, id, marked) == 0
    decreases p, 1
  {
    NoMarkedCounts(p, id, marked, |p.counts|);
    NoMarkedSites(p, id, marked, |p.calls|);
  }

  lemma {:induction false} NoMarkedCounts(p: Profile, id: nat, marked: (nat, nat) -> bool, k: nat)
    requires (forall i: nat, o: nat :: !marked(i, o)) && k <= |p.counts|
    ensures MarkedCounts(p, id, marked, k) == 0
  {
    if k == 0 {
    } else {
      NoMarkedCounts(p, id, marked, k - 1);
    }
  }

  lemma {:induction false} NoMarkedSites(p: Profile, id: nat, marked: (nat, nat) -> bool, k: nat)
    requires (forall i: nat, o: nat :: !marked(i, o)) && k <= |p.calls|
    ensures MarkedSites(p, id, marked, k) == 0
    decreases p, 0, k
  {
    if k == 0 {
    } else {
      NoMarkedSites(p, id, marked, k - 1);
      NothingMarked(p.calls[k - 1].callee, id + 1 + SizeCalls(p, k - 1), marked);
    }
  }

  /** No offset, and no call site with the same callee, occurs twice in the profile or in those nested in it. */
  predicate NoRepeats(p: Profile)
    decreases p
  {
    && (forall i :: 0 <= i < |p.counts| ==> LastCount(p, i))
    && (forall i :: 0 <= i < |p.calls| ==> LastSite(p, i) && NoRepeats(p.calls[i].callee))
  }

  /** With everything marked and nothing repeated it is the whole total. */
  lemma {:induction false} EverythingMarked(p: Profile, id: nat, marked: (nat, nat) -> bool)
    requires (forall i: nat, o: nat :: marked(i, o)) && NoRepeats(p)
    ensures MarkedSum(p, id, marked) == Sum(p)
    decreases p, 1
  {
    AllMarkedCounts(p, id, marked, |p.counts|);
    AllMarkedSites(p, id, marked, |p.calls|);
  }

  lemma {:induction false} AllMarkedCounts(p: Profile, id: nat, marked: (nat, nat) -> bool, k: nat)
    requires (forall i: nat, o: nat :: marked(i, o)) && NoRepeats(p) && k <= |p.counts|
    ensures MarkedCounts(p, id, marked, k) == SumCounts(p.counts, k)
  {
    if k == 0 {
    } else {
      AllMarkedCounts(p, id, marked, k - 1);
    }
  }

  lemma {:induction false} AllMarkedSites(p: Profile, id: nat, marked: (nat, nat) -> bool, k: nat)
    requires (forall i: nat, o: nat :: marked(i, o)) && NoRepeats(p) && k <= |p.calls|
    ensures MarkedSites(p, id, marked, k) == SumCalls(p, k)
    decreases p, 0, k
  {
    if k == 0 {
    } else {
      AllMarkedSites(p, id, marked, k - 1);
      EverythingMarked(p.calls[k - 1].callee, id + 1 + SizeCalls(p, k - 1), marked);
    }
  }

  /** For every stream read with any stack: nothing marked gives 0, and everything marked, if nothing is repeated, the total. */
  lemma AnnotatedOfRead(stream: seq<int>, at: nat, heap: Heap, stack: seq<nat>, head: int, marked: (nat, nat) -> bool)
    requires OnHeap(heap, stack)
    ensures var p := Parse(stream, at).0;
            var r := Build(heap, stack, p, head);
            && TotalAnnotated(r, marked, |heap|) == MarkedSum(p, |heap|, marked)
            && ((forall i: nat, o: nat :: !marked(i, o)) ==> TotalAnnotated(r, marked, |heap|) == 0)
            && ((forall i: nat, o: nat :: marked(i, o)) && NoRepeats(p) ==> TotalAnnotated(r, marked, |heap|) == r[|heap|].total)
  {
    hide Parse, TotalAnnotated, MarkedSum, Build, NoRepeats;
    var p := Parse(stream, at).0;
    var r := Build(heap, stack, p, head);
    BuildTotals(heap, stack, p, head);
    AnnotatedIsMarkedSum(r, marked, |heap|, p, head);
    if forall i: nat, o: nat :: !marked(i, o) { NothingMarked(p, |heap|, marked); }
    if (forall i: nat, o: nat :: marked(i, o)) && NoRepeats(p) { EverythingMarked(p, |heap|, marked); }
  }
}
