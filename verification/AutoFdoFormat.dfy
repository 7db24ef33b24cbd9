/** The layout of a function instance in a profile stream, written out from its description, and the reader as its inverse. */
module AutoFdoFormat {
  import opened AutoFdoReader

  /** One function instance as it stands in a stream. */
  datatype Record = Record(name: nat, positions: seq<PositionRecord>, sites: seq<SiteRecord>)

  /** A position: the word with its offset in the upper half, its count, and its targets. */
  datatype PositionRecord = PositionRecord(word: nat, count: int, targets: seq<Target>)
  datatype Target = Target(kind: int, index: int, count: int)
  datatype SiteRecord = SiteRecord(offset: nat, callee: Record)

  predicate Word(x: nat) {
    x < 0x1_0000_0000
  }

  /** Everything that is stored in a word fits one. */
  predicate Fits(r: Record)
    decreases r
  {
    && Word(r.name) && Word(|r.positions|) && Word(|r.sites|)
    && (forall i :: 0 <= i < |r.positions| ==> Word(r.positions[i].word) && Word(|r.positions[i].targets|))
    && (forall i :: 0 <= i < |r.sites| ==> Word(r.sites[i].offset) && Fits(r.sites[i].callee))
  }

  // ----- The layout -----

  function EncodeTargets(targets: seq<Target>): seq<int> {
    if targets == [] then []
    else [targets[0].kind, targets[0].index, targets[0].count] + EncodeTargets(targets[1..])
  }

  function EncodePositions(positions: seq<PositionRecord>): seq<int> {
    if positions == [] then []
    else [positions[0].word, |positions[0].targets|, positions[0].count] + EncodeTargets(positions[0].targets)
         + EncodePositions(positions[1..])
  }

  /** Name, number of positions, number of call sites, then the positions, then the call sites. */
  function Encode(r: Record): seq<int>
    decreases r, 1
  {
    [r.name, |r.positions|, |r.sites|] + EncodePositions(r.positions) + EncodeSites(r, 0)
  }

  /** The call sites from `i` on, each with its offset and the instance inlined there. */
  function EncodeSites(r: Record, i: nat): seq<int>
    requires i <= |r.sites|
    decreases r, 0, |r.sites| - i
  {
    if i == |r.sites| then [] else [r.sites[i].offset] + Encode(r.sites[i].callee) + EncodeSites(r, i + 1)
  }

  // ----- What it stands for -----

  /** The low half of a position's word is dropped, and so are the targets. */
  function Meaning(r: Record): Profile
    decreases r
  {
    Profile(r.name,
            seq(|r.positions|, i requires 0 <= i < |r.positions| =>
              Position(r.positions[i].word - r.positions[i].word % 0x1_0000, r.positions[i].count)),
            seq(|r.sites|, i requires 0 <= i < |r.sites| => Site(r.sites[i].offset, Meaning(r.sites[i].callee))))
  }

  // ----- Reading it back -----

  /** The stream has `e` at `p`. */
  predicate Has(stream: seq<int>, p: nat, e: seq<int>) {
    p + |e| <= |stream| && stream[p..p + |e|] == e
  }

  lemma HasParts(stream: seq<int>, p: nat, a: seq<int>, b: seq<int>)
    requires Has(stream, p, a + b)
    ensures Has(stream, p, a) && Has(stream, p + |a|, b)
  {
    var e := a + b;
    assert stream[p..p + |a|] == stream[p..p + |e|][..|a|] == a;
    assert stream[p + |a|..p + |a| + |b|] == stream[p..p + |e|][|a|..] == b;
  }

  lemma HasAt(stream: seq<int>, p: nat, e: seq<int>, i: nat)
    requires Has(stream, p, e) && i < |e|
    ensures Counter(stream, p + i) == e[i]
    ensures 0 <= e[i] < 0x1_0000_0000 ==> Unsigned(stream, p + i) == e[i]
  {
    assert stream[p..p + |e|][i] == stream[p + i];
  }

  lemma {:induction false} TargetsLength(targets: seq<Target>)
    ensures |EncodeTargets(targets)| == 3 * |targets|
  {
    if targets == [] {
    } else {
      TargetsLength(targets[1..]);
    }
  }

  ghost predicate PositionsFit(positions: seq<PositionRecord>) {
    forall i :: 0 <= i < |positions| ==> Word(positions[i].word) && Word(|positions[i].targets|)
  }

  function Offsets(positions: seq<PositionRecord>): seq<Position> {
    seq(|positions|, i requires 0 <= i < |positions| =>
      Position(positions[i].word - positions[i].word % 0x1_0000, positions[i].count))
  }

  /** What the stream has at the first position, and where the rest is. */
  lemma FirstPosition(stream: seq<int>, p: nat, positions: seq<PositionRecord>)
    requires Has(stream, p, EncodePositions(positions)) && PositionsFit(positions) && positions != []
    ensures var first, q := positions[0], p + 3 + 3 * |positions[0].targets|;
            && Unsigned(stream, p) == first.word && Unsigned(stream, p + 1) == |first.targets|
            && Counter(stream, p + 2) == first.count
            && Has(stream, q, EncodePositions(positions[1..])) && PositionsFit(positions[1..])
            && q + |EncodePositions(positions[1..])| == p + |EncodePositions(positions)|
  {
    hide Has, EncodeTargets, Counter, Unsigned;
    var first, rest := positions[0], positions[1..];
    var head := [first.word, |first.targets|, first.count] + EncodeTargets(first.targets);
    assert EncodePositions(positions) == head + EncodePositions(rest);
    HasParts(stream, p, head, EncodePositions(rest));
    TargetsLength(first.targets);
    HasAt(stream, p, head, 0);
    HasAt(stream, p, head, 1);
    HasAt(stream, p, head, 2);
  }

  lemma {:induction false} PositionsRead(stream: seq<int>, p: nat, positions: seq<PositionRecord>)
    requires Has(stream, p, EncodePositions(positions)) && PositionsFit(positions)
    ensures ParseCounts(stream, p, |positions|) == (Offsets(positions), p + |EncodePositions(positions)|)
    decreases |positions|
  {
    hide Has, EncodePositions, Counter, Unsigned, PositionsFit;
    if positions == [] {
      assert EncodePositions(positions) == [] by { NoPositions(); }
    } else {
      var first, rest := positions[0], positions[1..];
      FirstPosition(stream, p, positions);
      PositionsRead(stream, p + 3 + 3 * |first.targets|, rest);
      UpperHalf(first.word);
      assert Offsets(positions) == [Position(first.word - first.word % 0x1_0000, first.count)] + Offsets(rest);
    }
  }

  lemma NoPositions()
    ensures EncodePositions([]) == []
  {
  }

  lemma UpperHalf(w: nat)
    ensures w / 0x1_0000 * 0x1_0000 == w - w % 0x1_0000
  {
  }

  /** What the stream has at an instance, and where its positions and call sites are. */
  lemma Heading(stream: seq<int>, p: nat, r: Record)
    requires Fits(r) && Has(stream, p, Encode(r))
    ensures var q := p + 3 + |EncodePositions(r.positions)|;
            && Unsigned(stream, p) == r.name && Unsigned(stream, p + 1) == |r.positions| && Unsigned(stream, p + 2) == |r.sites|
            && Has(stream, p + 3, EncodePositions(r.positions)) && PositionsFit(r.positions)
            && Has(stream, q, EncodeSites(r, 0)) && q + |EncodeSites(r, 0)| == p + |Encode(r)|
  {
    hide Has, Counter, Unsigned, EncodePositions, EncodeSites;
    var head, positions, sites := [r.name, |r.positions|, |r.sites|], EncodePositions(r.positions), EncodeSites(r, 0);
    assert Encode(r) == head + (positions + sites);
    HasParts(stream, p, head, positions + sites);
    HasParts(stream, p + 3, positions, sites);
    HasAt(stream, p, head, 0);
    HasAt(stream, p, head, 1);
    HasAt(stream, p, head, 2);
  }

  /** Reading is the inverse of the layout, wherever in the stream the instance stands and whatever follows it. */
  lemma {:induction false} ParseEncoded(stream: seq<int>, p: nat, r: Record)
    requires Fits(r) && Has(stream, p, Encode(r))
    ensures Parse(stream, p) == (Meaning(r), p + |Encode(r)|)
    decreases r, 1
  {
    hide Has, Counter, Unsigned, EncodePositions, ParseCounts, ParseCalls, Encode, EncodeSites, Fits, PositionsFit;
    Heading(stream, p, r);
    PositionsRead(stream, p + 3, r.positions);
    var q := p + 3 + |EncodePositions(r.positions)|;
    SitesRead(stream, q, r, 0);
    assert Meaning(r).calls[0..] == Meaning(r).calls;
    assert Meaning(r).counts == Offsets(r.positions);
    if |r.sites| == 0 { NoSites(r); }
  }

  lemma NoSites(r: Record)
    requires |r.sites| == 0
    ensures EncodeSites(r, 0) == []
  {
  }

  lemma {:induction false} SitesRead(stream: seq<int>, p: nat, r: Record, i: nat)
    requires Fits(r) && i <= |r.sites| && Has(stream, p, EncodeSites(r, i))
    ensures ParseCalls(stream, p, |r.sites| - i) == (Meaning(r).calls[i..], p + |EncodeSites(r, i)|)
    decreases r, 0, |r.sites| - i
  {
    hide Has, Counter, Unsigned, Encode, Parse;
    if i == |r.sites| {
    } else {
      var site := r.sites[i];
      var head, rest := [site.offset], EncodeSites(r, i + 1);
      assert EncodeSites(r, i) == head + (Encode(site.callee) + rest);
      HasParts(stream, p, head, Encode(site.callee) + rest);
      HasParts(stream, p + 1, Encode(site.callee), rest);
      HasAt(stream, p, head, 0);
      ParseEncoded(stream, p + 1, site.callee);
      SitesRead(stream, p + 1 + |Encode(site.callee)|, r, i + 1);
      assert Meaning(r).calls[i..] == [Site(site.offset, Meaning(site.callee))] + Meaning(r).calls[i + 1..];
    }
  }

  /** In one piece: between anything before and anything after, the instance is read back and the reader stops at its end. */
  lemma ReadBack(before: seq<int>, r: Record, after: seq<int>)
    requires Fits(r)
    ensures Parse(before + Encode(r) + after, |before|) == (Meaning(r), |before| + |Encode(r)|)
  {
    var stream := before + Encode(r) + after;
    assert stream[|before|..|before| + |Encode(r)|] == Encode(r);
    ParseEncoded(stream, |before|, r);
  }
}
