/** Attribute lists: containment, equivalence and union. */
module Attribs {

  /** An attribute as the list holds it: its name and its value by identity. */
  datatype Attr = Attr(name: nat, value: nat)

  /** When two names are the same attribute, whatever their spelling, and when two attributes have the same value. */
  datatype Rules = Rules(sameName: (nat, nat) -> bool, sameValue: (Attr, Attr) -> bool)

  predicate Equal(c: Rules, a: Attr, b: Attr) {
    c.sameName(a.name, b.name) && c.sameValue(a, b)
  }

  /** Equality of attributes is an equivalence, sameness of names is one, and identical values are the same. */
  ghost predicate Lawful(c: Rules) {
    && (forall n :: c.sameName(n, n))
    && (forall m, n :: c.sameName(m, n) ==> c.sameName(n, m))
    && (forall a: Attr, b: Attr :: a.value == b.value ==> c.sameValue(a, b))
    && (forall a, b :: Equal(c, a, b) ==> Equal(c, b, a))
    && (forall a, b, d :: Equal(c, a, b) && Equal(c, b, d) ==> Equal(c, a, d))
  }

  /** Some element of the list is equal to `x`. */
  ghost predicate Has(c: Rules, list: seq<Attr>, x: Attr) {
    exists i :: 0 <= i < |list| && Equal(c, list[i], x)
  }

  /** Every element of `l2` has an equal in `l1`. */
  ghost predicate Contains(c: Rules, l1: seq<Attr>, l2: seq<Attr>) {
    forall j :: 0 <= j < |l2| ==> Has(c, l1, l2[j])
  }

  // ----- Lookup -----

  /** The first place from `start` on with an attribute of the name, or the end. */
  method LookupIdentAttribute(c: Rules, name: nat, list: seq<Attr>, start: nat) returns (i: nat)
    requires start <= |list|
    ensures start <= i <= |list|
    ensures forall k :: start <= k < i ==> !c.sameName(name, list[k].name)
    ensures i < |list| ==> c.sameName(name, list[i].name)
  {
    i := start;
    while i < |list|
      invariant start <= i <= |list|
      invariant forall k :: start <= k < i ==> !c.sameName(name, list[k].name)
    {
      if c.sameName(name, list[i].name) { break; }
      i := i + 1;
    }
  }

  /** Whether the list has an equal of `x`: the places with its name are tried one after the other. */
  method FindEqual(c: Rules, list: seq<Attr>, x: Attr) returns (found: bool)
    requires Lawful(c)
    ensures found <==> Has(c, list, x)
  {
    var i := LookupIdentAttribute(c, x.name, list, 0);
    while i < |list| && !c.sameValue(x, list[i])
      invariant 0 <= i <= |list| && (i < |list| ==> c.sameName(x.name, list[i].name))
      invariant forall k :: 0 <= k < i ==> !Equal(c, list[k], x)
    {
      NotThisOne(c, list[i], x);
      var next := LookupIdentAttribute(c, x.name, list, i + 1);
      forall k | i < k < next ensures !Equal(c, list[k], x) { OtherName(c, list[k], x); }
      i := next;
    }
    found := i < |list|;
    if found {
      assert Equal(c, x, list[i]);
      assert Equal(c, list[i], x);
    }
  }

  lemma NotThisOne(c: Rules, a: Attr, x: Attr)
    requires Lawful(c) && !c.sameValue(x, a)
    ensures !Equal(c, a, x)
  {
    assert Equal(c, a, x) ==> Equal(c, x, a);
  }

  lemma OtherName(c: Rules, a: Attr, x: Attr)
    requires Lawful(c) && !c.sameName(x.name, a.name)
    ensures !Equal(c, a, x)
  {
    assert Equal(c, a, x) ==> Equal(c, x, a);
  }

  // ----- Containment -----

  lemma Reflexive(c: Rules, a: Attr)
    requires Lawful(c)
    ensures Equal(c, a, a)
  {
  }

  /** Whether `l2` is contained in `l1`: exactly when each element of `l2` has an equal in `l1`, although a common beginning is
      skipped and identical lists are not looked at.  `shared` says that the two are one list. */
  method AttributeListContained(c: Rules, l1: seq<Attr>, l2: seq<Attr>, shared: bool) returns (r: bool)
    requires Lawful(c) && (shared ==> l1 == l2)
    ensures r <==> Contains(c, l1, l2)
  {
    if shared {
      forall j | 0 <= j < |l2| ensures Has(c, l1, l2[j]) { SamePlace(c, l1, l2, j); }
      return true;
    }
    var k := 0;
    while k < |l1| && k < |l2| && l1[k].name == l2[k].name && l1[k].value == l2[k].value
      invariant k <= |l1| && k <= |l2|
      invariant forall j :: 0 <= j < k ==> Has(c, l1, l2[j])
    {
      SamePlace(c, l1, l2, k);
      k := k + 1;
    }
    if k == |l1| && k == |l2| { return true; }
    while k < |l2|
      invariant k <= |l2|
      invariant forall j :: 0 <= j < k ==> Has(c, l1, l2[j])
    {
      var found := FindEqual(c, l1, l2[k]);
      if !found { return false; }
      k := k + 1;
    }
    r := true;
  }

  lemma SamePlace(c: Rules, l1: seq<Attr>, l2: seq<Attr>, j: nat)
    requires Lawful(c) && j < |l1| && j < |l2| && l1[j] == l2[j]
    ensures Has(c, l1, l2[j])
  {
    Reflexive(c, l1[j]);
    assert Equal(c, l1[j], l2[j]);
  }

  /** Whether two lists are equivalent: each contained in the other. */
  method AttributeListEqual(c: Rules, l1: seq<Attr>, l2: seq<Attr>, shared: bool) returns (r: bool)
    requires Lawful(c) && (shared ==> l1 == l2)
    ensures r <==> Contains(c, l1, l2) && Contains(c, l2, l1)
  {
    if shared {
      ContainsSelf(c, l1);
      return true;
    }
    r := AttributeListContained(c, l1, l2, false);
    if r {
      r := AttributeListContained(c, l2, l1, false);
    }
  }

  lemma ContainsSelf(c: Rules, l: seq<Attr>)
    requires Lawful(c)
    ensures Contains(c, l, l)
  {
    forall j | 0 <= j < |l| ensures Has(c, l, l[j]) { SamePlace(c, l, l, j); }
  }

  /** Containment is transitive, so equivalence of lists is an equivalence. */
  lemma ContainsTrans(c: Rules, l1: seq<Attr>, l2: seq<Attr>, l3: seq<Attr>)
    requires Lawful(c) && Contains(c, l1, l2) && Contains(c, l2, l3)
    ensures Contains(c, l1, l3)
  {
    forall j | 0 <= j < |l3| ensures Has(c, l1, l3[j]) {
      var k :| 0 <= k < |l2| && Equal(c, l2[k], l3[j]);
      assert Has(c, l1, l2[k]);
      var i :| 0 <= i < |l1| && Equal(c, l1[i], l2[k]);
      assert Equal(c, l1[i], l3[j]);
    }
  }

  // ----- Union -----

  /** `r` has everything of both lists, and nothing that is not, as it stands, an element of one of them. */
  ghost predicate IsUnion(c: Rules, r: seq<Attr>, a1: seq<Attr>, a2: seq<Attr>) {
    && Contains(c, r, a1) && Contains(c, r, a2)
    && forall x :: x in r ==> x in a1 || x in a2
  }

  /** No element up to `k` has an equal further on. */
  ghost predicate NoRepeats(c: Rules, list: seq<Attr>, k: nat)
    requires k <= |list|
  {
    forall i, j :: 0 <= i < k && i < j < |list| ==> !Equal(c, list[j], list[i])
  }

  /** Element `i` of `other` has no equal in `long`, nor before it in `other`. */
  ghost predicate Adds(c: Rules, long: seq<Attr>, other: seq<Attr>, i: nat)
    requires i < |other|
  {
    !Has(c, long, other[i]) && forall j :: 0 <= j < i ==> !Equal(c, other[j], other[i])
  }

  /** The elements of `other` at the places `ix`. */
  function Picked(other: seq<Attr>, ix: seq<nat>): seq<Attr>
    requires forall k :: 0 <= k < |ix| ==> ix[k] < |other|
  {
    seq(|ix|, k requires 0 <= k < |ix| => other[ix[k]])
  }

  /** The places of `other` below `n` that add something, last one first. */
  ghost predicate Places(c: Rules, long: seq<Attr>, other: seq<Attr>, n: nat, ix: seq<nat>)
    requires n <= |other|
  {
    && (forall k :: 0 <= k < |ix| ==> ix[k] < n)
    && (forall k, m :: 0 <= k < m < |ix| ==> ix[k] > ix[m])
    && (forall i :: 0 <= i < n ==> (i in ix <==> Adds(c, long, other, i)))
  }

  /** `r` is `long` with what `other` adds to it in front, in the opposite order. */
  ghost predicate HungOn(c: Rules, r: seq<Attr>, long: seq<Attr>, other: seq<Attr>) {
    exists ix :: Places(c, long, other, |other|, ix) && r == Picked(other, ix) + long
  }

  /** The union of two lists: the one that contains the other, the first if both do; otherwise the longer, the first if they are
      equally long, with what the other adds hung on.  What comes before that list in the result has no equal after it. */
  method MergeAttributes(c: Rules, a1: seq<Attr>, a2: seq<Attr>) returns (r: seq<Attr>)
    requires Lawful(c)
    ensures IsUnion(c, r, a1, a2)
    ensures exists k :: 0 <= k <= |r| && (r[k..] == a1 || r[k..] == a2) && NoRepeats(c, r, k)
    ensures if Contains(c, a1, a2) then r == a1
            else if Contains(c, a2, a1) then r == a2
            else if |a1| < |a2| then HungOn(c, r, a2, a1) else HungOn(c, r, a1, a2)
  {
    hide Lawful, Equal, Has, NoRepeats, HungOn;
    r := a1;
    ContainsSelf(c, a1);
    ContainsSelf(c, a2);
    NoneRepeats(c, a1);
    NoneRepeats(c, a2);
    if a1 == [] {
      r := a2;
      if a2 != [] { NothingInEmpty(c, a2); }
      return;
    }
    if a2 == [] { return; }
    var within := AttributeListContained(c, a1, a2, false);
    if within { return; }
    within := AttributeListContained(c, a2, a1, false);
    if within {
      r := a2;
      return;
    }
    if |a1| < |a2| {
      r := HangOn(c, a2, a1);
    } else {
      r := HangOn(c, a1, a2);
    }
  }

  lemma NothingInEmpty(c: Rules, l: seq<Attr>)
    requires l != []
    ensures !Contains(c, [], l)
  {
    assert !Has(c, [], l[0]);
  }

  /** Hangs on to `long` what `other` has beyond it. */
  method HangOn(c: Rules, long: seq<Attr>, other: seq<Attr>) returns (r: seq<Attr>)
    requires Lawful(c)
    ensures IsUnion(c, r, long, other)
    ensures exists k :: 0 <= k <= |r| && r[k..] == long && NoRepeats(c, r, k)
    ensures HungOn(c, r, long, other)
  {
    hide Lawful, Hanging, Has;
    r := long;
    ghost var ix: seq<nat> := [];
    HangingStart(c, long, other);
    var i := 0;
    while i < |other|
      invariant i <= |other| && Hanging(c, long, other, i, r, ix)
    {
      var found := FindEqual(c, r, other[i]);
      HangingStep(c, long, other, i, r, ix, found);
      if !found {
        r := [other[i]] + r;
        ix := [i] + ix;
      }
      i := i + 1;
    }
    HangingEnd(c, long, other, r, ix);
  }

  /** What has been put together of the first `n` elements of `other`, those at the places `ix`, and `long`. */
  ghost predicate Hanging(c: Rules, long: seq<Attr>, other: seq<Attr>, n: nat, r: seq<Attr>, ix: seq<nat>) {
    && PlacesBelow(other, n, ix) && r == Picked(other, ix) + long && Places(c, long, other, n, ix)
    && Contains(c, r, long) && Contains(c, r, other[..n]) && NoRepeats(c, r, |ix|)
    && forall x :: x in r ==> x in long || x in other
  }

  lemma HangingStart(c: Rules, long: seq<Attr>, other: seq<Attr>)
    requires Lawful(c)
    ensures Hanging(c, long, other, 0, long, [])
  {
    hide Lawful, Has, NoRepeats, Places;
    ContainsSelf(c, long);
    NoneRepeats(c, long);
    NoPlaces(c, long, other);
  }

  lemma HangingStep(c: Rules, long: seq<Attr>, other: seq<Attr>, n: nat, r: seq<Attr>, ix: seq<nat>, found: bool)
    requires Lawful(c) && n < |other| && Hanging(c, long, other, n, r, ix) && (found <==> Has(c, r, other[n]))
    ensures Hanging(c, long, other, n + 1, if found then r else [other[n]] + r, if found then ix else [n] + ix)
  {
    hide Lawful, Equal, Has, NoRepeats, Places, Adds, Contains, Picked, PlacesBelow;
    PlacesStep(c, long, other, n, ix, found);
    if found {
      OneMore(c, r, other, n);
    } else {
      HangingFront(c, long, other, n, r, ix);
    }
  }

  /** The next element of `other` in front. */
  lemma HangingFront(c: Rules, long: seq<Attr>, other: seq<Attr>, n: nat, r: seq<Attr>, ix: seq<nat>)
    requires Lawful(c) && n < |other| && Hanging(c, long, other, n, r, ix) && !Has(c, r, other[n])
    ensures PlacesBelow(other, n + 1, [n] + ix) && [other[n]] + r == Picked(other, [n] + ix) + long
    ensures Contains(c, [other[n]] + r, long) && Contains(c, [other[n]] + r, other[..n + 1])
    ensures NoRepeats(c, [other[n]] + r, |[n] + ix|) && forall x :: x in [other[n]] + r ==> x in long || x in other
  {
    hide Lawful, Equal, Has, NoRepeats, Places, Adds, Contains;
    var r' := [other[n]] + r;
    AddedInFront(c, r, other[n], long);
    AddedInFront(c, r, other[n], other[..n]);
    NoRepeatInFront(c, r, other[n], |ix|);
    assert Picked(other, [n] + ix) == [other[n]] + Picked(other, ix);
    SamePlace(c, r', r', 0);
    OneMore(c, r', other, n);
  }

  lemma HangingEnd(c: Rules, long: seq<Attr>, other: seq<Attr>, r: seq<Attr>, ix: seq<nat>)
    requires Hanging(c, long, other, |other|, r, ix)
    ensures IsUnion(c, r, long, other) && HungOn(c, r, long, other)
    ensures exists k :: 0 <= k <= |r| && r[k..] == long && NoRepeats(c, r, k)
  {
    hide Equal, Has, NoRepeats, Places;
    assert other[..|other|] == other;
    assert r[|ix|..] == long;
  }

  predicate PlacesBelow(other: seq<Attr>, n: nat, ix: seq<nat>) {
    n <= |other| && forall k :: 0 <= k < |ix| ==> ix[k] < n
  }

  lemma NoPlaces(c: Rules, long: seq<Attr>, other: seq<Attr>)
    ensures Places(c, long, other, 0, []) && Picked(other, []) + long == long
  {
  }

  /** An element found in what has been put together so far adds nothing, and one that is not adds itself. */
  lemma PlacesStep(c: Rules, long: seq<Attr>, other: seq<Attr>, n: nat, ix: seq<nat>, found: bool)
    requires Lawful(c) && n < |other| && PlacesBelow(other, n, ix) && Places(c, long, other, n, ix)
    requires found <==> Has(c, Picked(other, ix) + long, other[n])
    ensures Places(c, long, other, n + 1, if found then ix else [n] + ix)
    ensures PlacesBelow(other, n + 1, if found then ix else [n] + ix)
  {
    FoundMeans(c, long, other, n, ix);
    var ix' := if found then ix else [n] + ix;
    forall i | 0 <= i < n + 1 ensures i in ix' <==> Adds(c, long, other, i) {
      if i == n && found {
        assert n !in ix;
      }
    }
  }

  lemma FoundMeans(c: Rules, long: seq<Attr>, other: seq<Attr>, n: nat, ix: seq<nat>)
    requires Lawful(c) && n < |other| && PlacesBelow(other, n, ix) && Places(c, long, other, n, ix)
    ensures Has(c, Picked(other, ix) + long, other[n]) <==> !Adds(c, long, other, n)
  {
    var all := Picked(other, ix) + long;
    if Has(c, all, other[n]) {
      var i :| 0 <= i < |all| && Equal(c, all[i], other[n]);
      if i < |ix| {
        assert all[i] == other[ix[i]];
      } else {
        assert all[i] == long[i - |ix|];
        assert Has(c, long, other[n]);
      }
    }
    if !Adds(c, long, other, n) {
      if Has(c, long, other[n]) {
        InLong(c, Picked(other, ix), long, other[n]);
      } else {
        var j :| 0 <= j < n && Equal(c, other[j], other[n]);
        FirstEqual(c, long, other, n, ix, j);
      }
    }
  }

  lemma InLong(c: Rules, front: seq<Attr>, long: seq<Attr>, x: Attr)
    requires Has(c, long, x)
    ensures Has(c, front + long, x)
  {
    var i :| 0 <= i < |long| && Equal(c, long[i], x);
    assert (front + long)[|front| + i] == long[i];
  }

  lemma HasCarries(c: Rules, list: seq<Attr>, x: Attr, y: Attr)
    requires Lawful(c) && Equal(c, x, y)
    ensures Has(c, list, x) ==> Has(c, list, y)
  {
    if i :| 0 <= i < |list| && Equal(c, list[i], x) { assert Equal(c, list[i], y); }
  }

  /** The first of several equal elements is the one that was picked. */
  lemma {:induction false} FirstEqual(c: Rules, long: seq<Attr>, other: seq<Attr>, n: nat, ix: seq<nat>, j: nat)
    requires Lawful(c) && n < |other| && PlacesBelow(other, n, ix) && Places(c, long, other, n, ix)
    requires j < n && Equal(c, other[j], other[n]) && !Has(c, long, other[n])
    ensures Has(c, Picked(other, ix) + long, other[n])
    decreases j
  {
    if Adds(c, long, other, j) {
      assert j in ix;
      var k :| 0 <= k < |ix| && ix[k] == j;
      var all := Picked(other, ix) + long;
      assert all[k] == other[j] && Equal(c, all[k], other[n]);
    } else {
      HasCarries(c, long, other[j], other[n]);
      var i :| 0 <= i < j && Equal(c, other[i], other[j]);
      assert Equal(c, other[i], other[n]);
      FirstEqual(c, long, other, n, ix, i);
    }
  }

  lemma NoneRepeats(c: Rules, list: seq<Attr>)
    ensures NoRepeats(c, list, 0) && list[0..] == list
  {
  }

  lemma OneMore(c: Rules, r: seq<Attr>, other: seq<Attr>, i: nat)
    requires i < |other| && Contains(c, r, other[..i]) && Has(c, r, other[i])
    ensures Contains(c, r, other[..i + 1])
  {
    assert other[..i + 1] == other[..i] + [other[i]];
  }

  lemma AddedInFront(c: Rules, list: seq<Attr>, x: Attr, l2: seq<Attr>)
    requires Contains(c, list, l2)
    ensures Contains(c, [x] + list, l2)
  {
    forall j | 0 <= j < |l2| ensures Has(c, [x] + list, l2[j]) {
      assert Has(c, list, l2[j]);
      var i :| 0 <= i < |list| && Equal(c, list[i], l2[j]);
      assert ([x] + list)[i + 1] == list[i];
    }
  }

  lemma NoRepeatInFront(c: Rules, list: seq<Attr>, x: Attr, k: nat)
    requires k <= |list| && NoRepeats(c, list, k) && !Has(c, list, x)
    ensures NoRepeats(c, [x] + list, k + 1)
  {
    var all := [x] + list;
    forall i, j | 0 <= i < k + 1 && i < j < |all| ensures !Equal(c, all[j], all[i]) {
      assert all[j] == list[j - 1];
      if i > 0 { assert all[i] == list[i - 1]; }
    }
  }

  /** The union is unique up to equivalence; so merging in either order gives equivalent lists. */
  lemma UnionUnique(c: Rules, r: seq<Attr>, s: seq<Attr>, a1: seq<Attr>, a2: seq<Attr>)
    requires Lawful(c) && IsUnion(c, r, a1, a2) && (IsUnion(c, s, a1, a2) || IsUnion(c, s, a2, a1))
    ensures Contains(c, r, s) && Contains(c, s, r)
  {
    UnionInside(c, r, s, a1, a2);
    UnionInside(c, s, r, a1, a2);
  }

  lemma UnionInside(c: Rules, r: seq<Attr>, s: seq<Attr>, a1: seq<Attr>, a2: seq<Attr>)
    requires Contains(c, r, a1) && Contains(c, r, a2) && forall x :: x in s ==> x in a1 || x in a2
    ensures Contains(c, r, s)
  {
    forall j | 0 <= j < |s| ensures Has(c, r, s[j]) {
      assert s[j] in s;
      if s[j] in a1 {
        var i :| 0 <= i < |a1| && a1[i] == s[j];
        assert Has(c, r, a1[i]);
      } else {
        var i :| 0 <= i < |a2| && a2[i] == s[j];
        assert Has(c, r, a2[i]);
      }
    }
  }
}
