/** Quoting a string for a POSIX shell into a buffer of bounded size. */
module ShellQuote {
  import opened Options

  const NUL: char := '\0'
  const QUOTE: char := '\''
  const BACKSLASH: char := '\\'

  /** Sizes are 64 bits wide and wrap around. */
  const WORD := 0x1_0000_0000_0000_0000

  /** Subtraction of sizes. */
  function Minus(a: nat, b: nat): (r: nat)
    requires a < WORD && b < WORD
    ensures r == if a >= b then a - b else a + WORD - b
  {
    (a + WORD - b) % WORD
  }

  /** A quote inside the quoted string: close the quotes, give the quote behind a backslash, and open them again. */
  const ESCAPED: seq<char> := [QUOTE, BACKSLASH, QUOTE, QUOTE]

  function Body(s: seq<char>): seq<char> {
    if s == [] then []
    else Body(s[..|s| - 1]) + if s[|s| - 1] == QUOTE then ESCAPED else [s[|s| - 1]]
  }

  function Quoted(s: seq<char>): seq<char> {
    [QUOTE] + Body(s) + [QUOTE]
  }

  function Quotes(s: seq<char>): nat {
    if s == [] then 0 else Quotes(s[..|s| - 1]) + if s[|s| - 1] == QUOTE then 1 else 0
  }

  lemma {:induction false} BodyLength(s: seq<char>)
    ensures |Body(s)| == |s| + 3 * Quotes(s) && Quotes(s) <= |s|
    decreases |s|
  {
    if s == [] {
    } else {
      BodyLength(s[..|s| - 1]);
    }
  }

  // ----- What a shell makes of it -----

  /** The word a shell reads from `text`, by the rules for backslash and single quotes of the POSIX Shell Command Language,
      sections 2.2.1 and 2.2.2: inside single quotes every character stands for itself, and outside them a backslash makes the
      next one do so.  Nothing if anything else stands outside quotes, or quotes are left open. */
  function Unquote(text: seq<char>, inside: bool): Option<seq<char>>
    decreases |text|
  {
    if text == [] then if inside then None else Some([])
    else if inside then
      if text[0] == QUOTE then Unquote(text[1..], false) else Prepend(text[0], Unquote(text[1..], true))
    else if text[0] == QUOTE then Unquote(text[1..], true)
    else if text[0] == BACKSLASH && |text| > 1 then Prepend(text[1], Unquote(text[2..], false))
    else None
  }

  function Prepend(c: char, r: Option<seq<char>>): Option<seq<char>> {
    match r
    case Some(s) => Some([c] + s)
    case None => None
  }

  /** The body of a longer string is its body so far followed by the rest. */
  lemma {:induction false} BodyFirst(s: seq<char>)
    requires s != []
    ensures Body(s) == (if s[0] == QUOTE then ESCAPED else [s[0]]) + Body(s[1..])
    decreases |s|
  {
    if |s| == 1 {
      assert s[..0] == [] && s[1..] == [];
      assert Body([]) == [];
    } else {
      var front := s[..|s| - 1];
      BodyFirst(front);
      assert front[1..] == s[1..][..|s| - 2];
      assert s[1..][|s| - 2] == s[|s| - 1];
    }
  }

  lemma {:induction false} UnquoteBody(s: seq<char>)
    ensures Unquote(Body(s) + [QUOTE], true) == Some(s)
    decreases |s|
  {
    if s == [] {
      assert Body(s) + [QUOTE] == [QUOTE];
      assert [QUOTE][1..] == [];
    } else {
      UnquoteBody(s[1..]);
      BodyFirst(s);
      var rest := Body(s[1..]) + [QUOTE];
      var text := Body(s) + [QUOTE];
      assert s == [s[0]] + s[1..];
      if s[0] == QUOTE {
        assert text == ESCAPED + rest;
        EscapedRead(rest);
      } else {
        assert text[1..] == rest;
      }
    }
  }

  lemma EscapedRead(rest: seq<char>)
    ensures Unquote(ESCAPED + rest, true) == Prepend(QUOTE, Unquote(rest, true))
  {
    var t0 := ESCAPED + rest;
    var t1 := t0[1..];
    assert t1 == [BACKSLASH, QUOTE, QUOTE] + rest;
    var t2 := t1[2..];
    assert t2 == [QUOTE] + rest;
    assert t2[1..] == rest;
    assert Unquote(t2, false) == Unquote(rest, true);
    assert Unquote(t1, false) == Prepend(QUOTE, Unquote(t2, false));
  }

  /** A shell reads the quoted string back as the string. */
  lemma RoundTrip(s: seq<char>)
    ensures Unquote(Quoted(s), false) == Some(s)
  {
    assert Quoted(s)[1..] == Body(s) + [QUOTE];
    UnquoteBody(s);
  }

  // ----- When it fits -----

  /** The string is taken, in a buffer of `smax` bytes: three bytes and four for each quote are counted on top of the length, and
      one more is wanted where the only quote is the last character. */
  predicate Taken(s: seq<char>, smax: nat) {
    && |s| + 3 + 4 * Quotes(s) < smax
    && (Quotes(s) == 1 && s[|s| - 1] == QUOTE ==> |s| + 8 < smax)
  }

  /** The bytes written for a string that is taken, with the final NUL, are always fewer than the buffer holds. */
  lemma TakenFits(s: seq<char>, smax: nat)
    requires Taken(s, smax)
    ensures |Quoted(s)| + 1 < smax
  {
    BodyLength(s);
  }

  /** Strings for which there is room are turned away: with one quote, three bytes more than needed do not suffice. */
  lemma RoomNotUsed()
    ensures |Quoted([QUOTE])| + 1 == 7
    ensures forall smax :: 7 <= smax <= 9 ==> !Taken([QUOTE], smax)
    ensures Taken([QUOTE], 10)
  {
    assert [QUOTE][..0] == [];
    assert Quotes([]) == 0 && Quotes([QUOTE]) == 1;
    assert Body([]) == [] && |Body([QUOTE])| == 4;
  }

  lemma {:induction false} QuotesGrow(s: seq<char>, i: nat)
    requires i <= |s|
    ensures Quotes(s[..i]) <= Quotes(s)
    decreases |s|
  {
    if i < |s| {
      QuotesGrow(s[..|s| - 1], i);
      assert s[..|s| - 1][..i] == s[..i];
    } else {
      assert s[..i] == s;
    }
  }

  lemma NextChar(s: seq<char>, i: nat)
    requires i < |s|
    ensures Body(s[..i + 1]) == Body(s[..i]) + if s[i] == QUOTE then ESCAPED else [s[i]]
    ensures Quotes(s[..i + 1]) == Quotes(s[..i]) + if s[i] == QUOTE then 1 else 0
    ensures |Body(s[..i])| == i + 3 * Quotes(s[..i]) && Quotes(s[..i + 1]) <= Quotes(s)
  {
    var t := s[..i + 1];
    assert t[..|t| - 1] == s[..i];
    BodyLength(s[..i]);
    QuotesGrow(s, i + 1);
  }

  /** The check made at a quote fails only where that quote is the only one, is the last character, and the count just fits. */
  lemma QuoteCheck(s: seq<char>, i: nat, m: int)
    requires i < |s| && s[i] == QUOTE && |s| + 3 + 4 * Quotes(s) <= m
    ensures 2 + i + 3 * Quotes(s[..i]) >= m - 6 <==> Quotes(s) == 1 && i == |s| - 1 && m == |s| + 7
  {
    NextChar(s, i);
  }

  // ----- In place -----

  /** How many bytes are counted for the string: its length and three, and four more for each quote. */
  method DataSize(s: seq<char>) returns (n: nat)
    ensures n == |s| + 3 + 4 * Quotes(s)
  {
    n := |s| + 3;
    var i := 0;
    while i < |s|
      invariant i <= |s| && n == |s| + 3 + 4 * Quotes(s[..i])
    {
      NextChar(s, i);
      if s[i] == QUOTE { n := n + 4; }
      i := i + 1;
    }
    assert s[..i] == s;
  }

  /** Room for the text and its NUL. */
  function Need(s: seq<char>): nat {
    |Quoted(s)| + 1
  }

  /** The memory from `d` on: the text that has been written. */
  ghost predicate Written(mem: array<char>, d: nat, text: seq<char>)
    reads mem
  {
    d + |text| <= mem.Length && mem[d..d + |text|] == text
  }

  /** Nothing outside the `n` bytes from `d` on differs from `before`. */
  ghost predicate OnlyIn(mem: array<char>, before: seq<char>, d: nat, n: nat)
    reads mem
  {
    |before| == mem.Length && forall k :: 0 <= k < mem.Length && !(d <= k < d + n) ==> mem[k] == before[k]
  }

  /** One character of the string, unless one of the two checks on the room left fails. */
  method PutChar(mem: array<char>, d: nat, s: seq<char>, i: nat, p: nat, max: nat, ghost before: seq<char>)
    returns (ok: bool, p': nat)
    requires i < |s| && p == d + 1 + |Body(s[..i])| && d + Need(s) <= mem.Length && max < WORD
    requires Written(mem, d, [QUOTE] + Body(s[..i])) && OnlyIn(mem, before, d, Need(s))
    modifies mem
    ensures ok <==> p - d < max && (s[i] == QUOTE ==> p + 1 - d < Minus(max, 6))
    ensures OnlyIn(mem, before, d, Need(s))
    ensures ok ==> p' == d + 1 + |Body(s[..i + 1])| && Written(mem, d, [QUOTE] + Body(s[..i + 1]))
  {
    NextChar(s, i);
    BodyRoom(s, i);
    hide Body, Quotes, Minus;
    p' := p;
    if p' - d >= max { return false, p'; }
    mem[p'] := s[i];
    p' := p' + 1;
    if s[i] == QUOTE {
      if p' - d >= Minus(max, 6) { return false, p'; }
      CopyEscape(mem, p' - 1);
      p' := p' + 3;
    }
    ok := true;
    assert mem[d..p] == [QUOTE] + Body(s[..i]);
    assert mem[d..p'] == mem[d..p] + mem[p..p'];
  }

  /** The escape and its NUL copied to `p`. */
  method CopyEscape(mem: array<char>, p: nat)
    requires p + 5 <= mem.Length
    modifies mem
    ensures mem[p..p + 4] == ESCAPED && mem[p + 4] == NUL
    ensures forall k :: 0 <= k < mem.Length && !(p <= k < p + 5) ==> mem[k] == old(mem[k])
  {
    var i := 0;
    while i < 4
      invariant 0 <= i <= 4 && mem[p..p + i] == ESCAPED[..i]
      invariant forall k :: 0 <= k < mem.Length && !(p <= k < p + 5) ==> mem[k] == old(mem[k])
    {
      mem[p + i] := ESCAPED[i];
      i := i + 1;
    }
    mem[p + 4] := NUL;
  }

  /** Writes `s` quoted at `d`, where the buffer has `smax` bytes.  With a buffer of at least one byte nothing outside it is
      written, and the string is written exactly when it is taken; the result is the place of the final NUL.  For a buffer said
      to have no bytes the size wraps around: the string is written in any case, beyond the buffer. */
  method MakeRawShellStr(mem: array<char>, d: nat, s: seq<char>, smax: nat) returns (r: Option<nat>)
    requires NUL !in s && smax < WORD && 8 * |s| + 16 < WORD
    requires d + smax <= mem.Length && d + Need(s) <= mem.Length
    modifies mem
    ensures r.Some? <==> smax == 0 || Taken(s, smax)
    ensures r.Some? ==> r.value == d + |Quoted(s)| && Written(mem, d, Quoted(s) + [NUL])
    ensures smax > 0 ==> OnlyIn(mem, old(mem[..]), d, smax)
    ensures OnlyIn(mem, old(mem[..]), d, Need(s))
  {
    hide Body, Quotes, Minus, Taken, Need;
    ghost var before := mem[..];
    var max := Minus(smax, 1);
    var size := DataSize(s);
    TakenMeans(s, smax, max, size);
    if size > max { return None; }
    var p := d;
    mem[p] := QUOTE;
    p := p + 1;
    var i := 0;
    NothingYet(s);
    while i < |s|
      invariant i <= |s| && p == d + 1 + |Body(s[..i])| && OnlyIn(mem, before, d, Need(s))
      invariant Written(mem, d, [QUOTE] + Body(s[..i]))
      invariant forall j :: 0 <= j < i && s[j] == QUOTE ==> !JustShort(s, j, max)
    {
      RoomLeft(s, i, max);
      var ok;
      ok, p := PutChar(mem, d, s, i, p, max, before);
      if !ok { return None; }
      i := i + 1;
    }
    assert s[..i] == s;
    if p - d >= max { return None; }
    p := Finish(mem, d, s, p, before);
    r := Some(p);
  }

  /** Copies the final NUL, puts the closing quote in its place and the NUL after it. */
  method Finish(mem: array<char>, d: nat, s: seq<char>, p: nat, ghost before: seq<char>) returns (p': nat)
    requires p == d + 1 + |Body(s)| && d + Need(s) <= mem.Length
    requires Written(mem, d, [QUOTE] + Body(s)) && OnlyIn(mem, before, d, Need(s))
    modifies mem
    ensures p' == d + |Quoted(s)| && Written(mem, d, Quoted(s) + [NUL]) && OnlyIn(mem, before, d, Need(s))
  {
    hide Body;
    mem[p] := NUL;
    p' := p + 1;
    mem[p' - 1] := QUOTE;
    mem[p'] := NUL;
    assert mem[d..p] == [QUOTE] + Body(s);
    assert mem[d..p + 2] == mem[d..p] + [QUOTE, NUL];
  }

  /** The only quote is the last character, at `j`, and the bytes counted are all there are. */
  predicate JustShort(s: seq<char>, j: nat, max: nat) {
    Quotes(s) == 1 && j == |s| - 1 && max == |s| + 7
  }

  lemma TakenMeans(s: seq<char>, smax: nat, max: nat, size: nat)
    requires smax < WORD && 8 * |s| + 16 < WORD && max == Minus(smax, 1) && size == |s| + 3 + 4 * Quotes(s)
    ensures size <= max && smax > 0 ==> Need(s) <= smax
    ensures Need(s) >= 3 && (size <= max ==> 1 + |Body(s)| < max)
    ensures smax == 0 ==> size <= max && forall j :: 0 <= j < |s| ==> !JustShort(s, j, max)
    ensures smax > 0 ==> (Taken(s, smax) <==> size <= max && !(s != [] && s[|s| - 1] == QUOTE && JustShort(s, |s| - 1, max)))
  {
    BodyLength(s);
  }

  lemma NothingYet(s: seq<char>)
    ensures Body(s[..0]) == []
  {
  }

  lemma RoomLeft(s: seq<char>, i: nat, max: nat)
    requires i < |s| && |s| + 3 + 4 * Quotes(s) <= max < WORD
    ensures 1 + |Body(s[..i])| < max
    ensures s[i] == QUOTE ==> (2 + |Body(s[..i])| < Minus(max, 6) <==> !JustShort(s, i, max))
  {
    NextChar(s, i);
    if s[i] == QUOTE { QuoteCheck(s, i, max); }
  }

  lemma BodyRoom(s: seq<char>, i: nat)
    requires i < |s|
    ensures |Body(s[..i + 1])| <= |Body(s)|
  {
    BodyLength(s[..i + 1]);
    BodyLength(s);
    QuotesGrow(s, i + 1);
  }
}
