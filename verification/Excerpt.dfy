/**
 Search excerpts of internal/brain/index.go, on bytes: cutting a UTF-8 text to a byte
 limit without breaking a character, and framing the first match of a query.
 */
module Excerpt {
  import opened Text

  type byte = b: int | 0 <= b < 256
  type bytes = seq<byte>

  const MAX_EXCERPT: nat := 480
  /** The three bytes of U+2026. */
  const ELLIPSIS: bytes := [0xE2, 0x80, 0xA6]

  // ------------------------------------------------------------------ UTF-8

  predicate Tail(b: byte) { 0x80 <= b <= 0xBF }

  /** Go's `utf8.RuneStart`. */
  predicate RuneStart(b: byte) { !Tail(b) }

  /** Length of the first character of `s` by the syntax of section 4 of RFC 3629, or 0 if there is none. */
  function RuneLen(s: bytes): (n: nat)
    ensures n <= 4 && n <= |s|
    ensures n > 0 ==> RuneStart(s[0]) && forall i | 0 < i < n :: Tail(s[i])
  {
    if |s| >= 1 && s[0] <= 0x7F then 1
    else if |s| >= 2 && 0xC2 <= s[0] <= 0xDF && Tail(s[1]) then 2
    else if |s| >= 3 && ThreeByteLead(s[0], s[1]) && Tail(s[2]) then 3
    else if |s| >= 4 && FourByteLead(s[0], s[1]) && Tail(s[2]) && Tail(s[3]) then 4
    else 0
  }

  predicate ThreeByteLead(a: byte, b: byte) {
    || (a == 0xE0 && 0xA0 <= b <= 0xBF)
    || (0xE1 <= a <= 0xEC && Tail(b))
    || (a == 0xED && 0x80 <= b <= 0x9F)
    || (0xEE <= a <= 0xEF && Tail(b))
  }

  predicate FourByteLead(a: byte, b: byte) {
    || (a == 0xF0 && 0x90 <= b <= 0xBF)
    || (0xF1 <= a <= 0xF3 && Tail(b))
    || (a == 0xF4 && 0x80 <= b <= 0x8F)
  }

  predicate Valid(s: bytes)
    decreases |s|
  {
    s == [] || (RuneLen(s) > 0 && Valid(s[RuneLen(s)..]))
  }

  /** A character may start at offset `p`, or the text ends there. */
  predicate Boundary(s: bytes, p: nat)
    requires p <= |s|
  {
    p == |s| || RuneStart(s[p])
  }

  /** A valid text can be cut at `p` exactly when `p` is a boundary, and then both halves are valid. */
  lemma {:induction false} CutIffBoundary(s: bytes, p: nat)
    requires Valid(s) && p <= |s|
    ensures Boundary(s, p) <==> Valid(s[..p])
    ensures Boundary(s, p) ==> Valid(s[p..])
    decreases |s|
  {
    if s == [] {
      assert s[..p] == [] && s[p..] == [];
    } else if p == 0 {
      assert s[..0] == [] && s[0..] == s;
    } else {
      var n := RuneLen(s);
      hide RuneLen;
      var head, rest := s[..p], s[n..];
      if p < n {
        ShorterIsNoCharacter(s, p);
      } else {
        CutIffBoundary(rest, p - n);
        SameFirstCharacter(s, head);
        assert head[n..] == rest[..p - n];
        assert s[p..] == rest[p - n..];
      }
    }
  }

  lemma SameFirstCharacter(s: bytes, t: bytes)
    requires 0 < RuneLen(s) <= |t| && t[..RuneLen(s)] == s[..RuneLen(s)]
    ensures RuneLen(t) == RuneLen(s)
  {
    assert forall i | 0 <= i < RuneLen(s) :: t[i] == t[..RuneLen(s)][i] == s[i];
  }

  lemma ShorterIsNoCharacter(s: bytes, p: nat)
    requires 0 < p < RuneLen(s)
    ensures RuneLen(s[..p]) == 0
  {
    var head := s[..p];
    assert head[0] == s[0];
    if p > 1 { assert head[1] == s[1]; }
  }

  lemma {:induction false} ConcatValid(a: bytes, b: bytes)
    requires Valid(a) && Valid(b)
    ensures Valid(a + b)
    decreases |a|
  {
    var s := a + b;
    if a == [] {
      assert s == b;
    } else {
      var n := RuneLen(a);
      hide RuneLen;
      assert n <= |a|;
      ConcatValid(a[n..], b);
      Joined(a, b, n);
      SameFirstCharacter(a, s);
      StepValid(s);
    }
  }

  lemma Joined(a: bytes, b: bytes, n: nat)
    requires n <= |a|
    ensures (a + b)[..n] == a[..n] && (a + b)[n..] == a[n..] + b
  {
  }

  lemma StepValid(s: bytes)
    requires RuneLen(s) > 0 && Valid(s[RuneLen(s)..])
    ensures Valid(s)
  {
  }

  // --------------------------------------------------- what valid UTF-8 is

  /** A Unicode scalar value: a code point that is no surrogate. */
  predicate Scalar(cp: int) { 0 <= cp < 0xD800 || 0xE000 <= cp <= 0x10FFFF }

  /** The bytes of a character, by section 3 of RFC 3629. */
  function Encode(cp: int): bytes
    requires Scalar(cp)
  {
    if cp < 0x80 then [cp]
    else if cp < 0x800 then [0xC0 + cp / 64, 0x80 + cp % 64]
    else if cp < 0x10000 then [0xE0 + cp / 4096, 0x80 + cp / 64 % 64, 0x80 + cp % 64]
    else [0xF0 + cp / 262144, 0x80 + cp / 4096 % 64, 0x80 + cp / 64 % 64, 0x80 + cp % 64]
  }

  function EncodeAll(cps: seq<int>): bytes
    requires forall i | 0 <= i < |cps| :: Scalar(cps[i])
  {
    if cps == [] then [] else Encode(cps[0]) + EncodeAll(cps[1..])
  }

  lemma EncodedIsRune(cp: int, rest: bytes)
    requires Scalar(cp)
    ensures RuneLen(Encode(cp) + rest) == |Encode(cp)|
  {
    EncodedAlone(cp);
    var e := Encode(cp);
    hide Encode, RuneLen;
    assert (e + rest)[..|e|] == e && e[..|e|] == e;
    SameFirstCharacter(e, e + rest);
  }

  lemma EncodedAlone(cp: int)
    requires Scalar(cp)
    ensures RuneLen(Encode(cp)) == |Encode(cp)| > 0
  {
    assert cp / 4096 == cp / 64 / 64 && cp / 262144 == cp / 4096 / 64;
    if 0x800 <= cp < 0x10000 {
      assert ThreeByteLead(0xE0 + cp / 4096, 0x80 + cp / 64 % 64);
    } else if 0x10000 <= cp {
      assert FourByteLead(0xF0 + cp / 262144, 0x80 + cp / 4096 % 64);
    }
  }

  /** The number so far with six more bits. */
  function Shift(n: int, tail: int): int { n * 64 + (tail - 0x80) }

  /** The character a text begins with. */
  function Decode(s: bytes): int
    requires RuneLen(s) > 0
  {
    match RuneLen(s)
    case 1 => s[0]
    case 2 => Shift(s[0] - 0xC0, s[1])
    case 3 => Shift(Shift(s[0] - 0xE0, s[1]), s[2])
    case _ => Shift(Shift(Shift(s[0] - 0xF0, s[1]), s[2]), s[3])
  }

  lemma RuneIsEncoded(s: bytes)
    requires RuneLen(s) > 0
    ensures Scalar(Decode(s)) && s[..RuneLen(s)] == Encode(Decode(s))
  {
    var cp, n := Decode(s), RuneLen(s);
    assert cp / 4096 == cp / 64 / 64 && cp / 262144 == cp / 64 / 64 / 64;
    if n == 2 {
      Shifted(s[0] - 0xC0, s[1]);
    } else if n == 3 {
      Shifted(s[0] - 0xE0, s[1]);
      Shifted(Shift(s[0] - 0xE0, s[1]), s[2]);
    } else if n == 4 {
      Shifted(s[0] - 0xF0, s[1]);
      Shifted(Shift(s[0] - 0xF0, s[1]), s[2]);
      Shifted(Shift(Shift(s[0] - 0xF0, s[1]), s[2]), s[3]);
    }
  }

  lemma Shifted(n: int, tail: int)
    requires 0x80 <= tail <= 0xBF
    ensures Shift(n, tail) / 64 == n && 0x80 + Shift(n, tail) % 64 == tail
  {
  }

  /** A text is valid exactly when it is the encoding of some sequence of characters. */
  lemma ValidIff(s: bytes)
    ensures Valid(s) <==> exists cps | IsEncoding(cps, s) :: true
  {
    if Valid(s) { var cps := Decoded(s); assert IsEncoding(cps, s); }
    if cps :| IsEncoding(cps, s) { EncodedIsValid(cps); }
  }

  predicate IsEncoding(cps: seq<int>, s: bytes) {
    (forall i | 0 <= i < |cps| :: Scalar(cps[i])) && EncodeAll(cps) == s
  }

  lemma {:induction false} Decoded(s: bytes) returns (cps: seq<int>)
    requires Valid(s)
    ensures IsEncoding(cps, s)
    decreases |s|
  {
    cps := [];
    if s != [] {
      RuneIsEncoded(s);
      var n := RuneLen(s);
      hide RuneLen, Decode, Encode;
      var rest := Decoded(s[n..]);
      cps := [Decode(s)] + rest;
      assert cps[1..] == rest && s == s[..n] + s[n..];
    }
  }

  lemma {:induction false} EncodedIsValid(cps: seq<int>)
    requires forall i | 0 <= i < |cps| :: Scalar(cps[i])
    ensures Valid(EncodeAll(cps))
  {
    if cps != [] {
      EncodedIsValid(cps[1..]);
      var e, rest := Encode(cps[0]), EncodeAll(cps[1..]);
      EncodedIsRune(cps[0], rest);
      hide RuneLen, Encode;
      assert (e + rest)[|e|..] == rest;
      StepValid(e + rest) by { assert |e| > 0; }
    }
  }

  /** The length of a text in bytes is that of its encoding. */
  lemma {:induction false} ByteLenIs(s: string)
    ensures ByteLen(s) == |EncodeAll(CodePoints(s))|
  {
    if s != "" {
      ByteLenIs(s[1..]);
      assert CodePoints(s)[1..] == CodePoints(s[1..]);
    }
  }

  function CodePoints(s: string): (cps: seq<int>)
    ensures |cps| == |s| && forall i | 0 <= i < |cps| :: Scalar(cps[i])
  {
    seq(|s|, i requires 0 <= i < |s| => s[i] as int)
  }

  // ------------------------------------------------------------- truncation

  /** `r` is the longest prefix of `s` of at most `limit` bytes that stops at a boundary. */
  ghost predicate IsTruncation(s: bytes, limit: int, r: bytes) {
    && r <= s
    && |r| <= (if limit <= 0 then 0 else limit)
    && (r == [] || Boundary(s, |r|))
    && forall q: nat | |r| < q <= |s| && q <= limit :: !Boundary(s, q)
  }

  method TruncateUtf8(value: bytes, maximum: int) returns (r: bytes)
    ensures IsTruncation(value, maximum, r)
  {
    if maximum <= 0 {
      return [];
    }
    if |value| <= maximum {
      return value;
    }
    var end := maximum;
    while end > 0 && !RuneStart(value[end])
      invariant 0 <= end <= maximum < |value|
      invariant forall q: nat | end < q <= maximum :: !Boundary(value, q)
    {
      end := end - 1;
    }
    return value[..end];
  }

  lemma TruncationIsPrefix(s: bytes, limit: nat, r: bytes)
    requires IsTruncation(s, limit, r)
    ensures r <= s && |r| <= limit
  {
  }

  /** Of a valid text the truncation is the longest valid prefix that fits the limit. */
  lemma TruncationIsLongestValidPrefix(s: bytes, limit: int, r: bytes)
    requires Valid(s) && IsTruncation(s, limit, r)
    ensures Valid(r)
    ensures forall t: bytes | t <= s && Valid(t) && |t| <= limit :: |t| <= |r|
  {
    CutIffBoundary(s, |r|);
    assert s[..|r|] == r;
    hide Valid, RuneLen;
    forall t: bytes | t <= s && Valid(t) && |t| <= limit
      ensures |t| <= |r|
    {
      assert s[..|t|] == t;
      CutIffBoundary(s, |t|);
    }
  }

  lemma TruncationFacts(s: bytes, limit: nat, r: bytes)
    requires Valid(s) && IsTruncation(s, limit, r)
    ensures Valid(r)
    ensures if |s| <= limit then r == s else limit - 3 <= |r|
  {
    TruncationIsLongestValidPrefix(s, limit, r);
    if |s| <= limit {
      assert |s| <= |r|;
    } else {
      TruncationIsTight(s, limit, r);
    }
  }

  /** A character is at most four bytes, so at most three bytes of the limit stay unused. */
  lemma TruncationIsTight(s: bytes, limit: nat, r: bytes)
    requires Valid(s) && IsTruncation(s, limit, r) && limit <= |s|
    ensures limit - 3 <= |r|
  {
    if |r| < |s| {
      CutIffBoundary(s, |r|);
      var rest := s[|r|..];
      var n := RuneLen(rest);
      CutIffBoundary(rest, n);
      assert Boundary(rest, n);
      assert Boundary(s, |r| + n) by {
        if n < |rest| { assert s[|r| + n] == rest[n]; }
      }
    }
  }

  // ---------------------------------------------------------------- excerpts

  /** `m` is the first offset at which any of the terms occurs in `s`. */
  ghost predicate FirstMatch(s: bytes, terms: seq<bytes>, m: Option<nat>) {
    && (m.Some? ==> exists t :: t in terms && At(s, t, m.value))
    && (forall t, i: nat | t in terms && At(s, t, i) :: m.Some? && m.value <= i)
  }

  method Match(lower: bytes, terms: seq<bytes>) returns (m: Option<nat>)
    ensures FirstMatch(lower, terms, m)
  {
    m := None;
    for k := 0 to |terms|
      invariant FirstMatch(lower, terms[..k], m)
    {
      var position := IndexFrom(lower, terms[k], 0);
      IndexIsFirst(lower, terms[k], 0);
      assert terms[..k + 1] == terms[..k] + [terms[k]];
      if position.Some? && (m.None? || position.value < m.value) {
        m := position;
      }
    }
    assert terms[..|terms|] == terms;
  }

  /** Where the excerpt wants to begin: a third of the limit before the match. */
  function Wanted(m: Option<nat>): nat {
    if m.Some? && m.value > MAX_EXCERPT / 3 then m.value - MAX_EXCERPT / 3 else 0
  }

  function Lead(start: nat): bytes {
    if start > 0 then ELLIPSIS else []
  }

  /**
   The excerpt shows `body[start..end]`, marked in front when something is left out there
   and at the end unless the hidden rest is no longer than the mark in front.
   */
  ghost predicate Shows(body: bytes, start: nat, end: nat, r: bytes) {
    && start <= end <= |body|
    && Boundary(body, start)
    && ((r == Lead(start) + body[start..end] && |body| <= end + |Lead(start)|)
        || (r == Lead(start) + body[start..end] + ELLIPSIS && end < |body|))
  }

  /**
   `makeExcerpt`, with `lower` the lower-cased body and the terms in lower case. The code
   indexes the body with an offset found in the lower-cased text; the result is `None`
   where that index is out of range, which happens exactly when the wanted start is not
   inside the body.
   */
  method MakeExcerpt(body: bytes, lower: bytes, terms: seq<bytes>) returns (r: Option<bytes>, ghost m: Option<nat>)
    ensures FirstMatch(lower, terms, m)
    ensures Wanted(m) == if m.Some? && m.value > 160 then m.value - 160 else 0
    ensures r.None? <==> body != [] && Wanted(m) >= |body|
    ensures r.Some? ==> |r.value| <= 480
    ensures r.Some? && body == [] ==> r.value == []
    ensures r.Some? && Valid(body) ==> Valid(r.value)
    ensures r.Some? && Valid(body) && body != [] ==>
              exists start: nat, end: nat ::
                && start <= Wanted(m) <= start + 3
                && Shows(body, start, end, r.value)
                && (m.Some? && m.value < |body| ==> m.value < end)
  {
    if body == [] {
      m := Match(lower, terms);
      return Some([]), m;
    }
    var found := Match(lower, terms);
    m := found;
    var start := if found.Some? then found.value else 0;
    if start > MAX_EXCERPT / 3 {
      start := start - MAX_EXCERPT / 3;
    } else {
      start := 0;
    }
    assert start == Wanted(m);
    if start > 0 && start >= |body| {
      return None, m;
    }
    start := BackUp(body, start);
    var fragment := Frame(body, start);
    assert Valid(body) ==> Sound(body, start);
    assert Valid(body) ==>
        exists end: nat ::
          Shows(body, start, end, fragment) && (m.Some? && m.value < |body| ==> m.value < end);
    r := Some(fragment);
  }

  /** Lower-casing that does not lengthen the text, one that keeps byte offsets in particular, is always safe. */
  lemma SafeWhenLowerIsNotLonger(body: bytes, lower: bytes, terms: seq<bytes>, m: Option<nat>)
    requires FirstMatch(lower, terms, m) && |lower| <= |body|
    ensures body == [] || Wanted(m) < |body|
  {
  }

  function Repeat(unit: bytes, n: nat): (r: bytes)
    ensures |r| == n * |unit|
    ensures forall b | b in r :: b in unit
  {
    if n == 0 then [] else unit + Repeat(unit, n - 1)
  }

  /**
   Lower-casing U+023A turns two bytes into three, so in a long enough run of it a match
   lies beyond the end of the body: these are valid notes whose search fails.
   */
  lemma LongerLowerCaseFails(n: nat)
    requires n >= 161
    ensures var body, lower := Repeat([0xC8, 0xBA], n) + [0x78], Repeat([0xE2, 0xB1, 0xA5], n) + [0x78];
            && Valid(body) && Valid(lower)
            && FirstMatch(lower, [[0x78]], Some(3 * n))
            && Wanted(Some(3 * n)) >= |body|
  {
    var body, lower := Repeat([0xC8, 0xBA], n) + [0x78], Repeat([0xE2, 0xB1, 0xA5], n) + [0x78];
    Samples();
    hide Valid, RuneLen;
    RepeatValid([0xC8, 0xBA], n);
    RepeatValid([0xE2, 0xB1, 0xA5], n);
    ConcatValid(Repeat([0xC8, 0xBA], n), [0x78]);
    ConcatValid(Repeat([0xE2, 0xB1, 0xA5], n), [0x78]);
    MatchAfter(Repeat([0xE2, 0xB1, 0xA5], n), 0x78);
  }

  lemma Samples()
    ensures Valid([0xC8, 0xBA]) && Valid([0xE2, 0xB1, 0xA5]) && Valid([0x78])
  {
    assert RuneLen([0xC8, 0xBA]) == 2 && RuneLen([0xE2, 0xB1, 0xA5]) == 3 && RuneLen([0x78]) == 1;
  }

  /** A byte appended to a text that lacks it is first found at the end. */
  lemma MatchAfter(s: bytes, b: byte)
    requires b !in s
    ensures FirstMatch(s + [b], [[b]], Some(|s|))
  {
    var t := s + [b];
    assert At(t, [b], |s|);
    forall i: nat | At(t, [b], i) ensures |s| <= i {
      assert t[i] == t[i..i + 1][0] == b;
    }
  }

  lemma {:induction false} RepeatValid(unit: bytes, n: nat)
    requires Valid(unit)
    ensures Valid(Repeat(unit, n))
  {
    if n > 0 {
      RepeatValid(unit, n - 1);
      ConcatValid(unit, Repeat(unit, n - 1));
    }
  }

  /** Backs up to the start of the character that covers offset `from`. */
  method BackUp(body: bytes, from: nat) returns (start: nat)
    requires from < |body|
    ensures start <= from
    ensures start == 0 || RuneStart(body[start])
    ensures Valid(body) ==> Boundary(body, start) && from <= start + 3
  {
    start := from;
    while start > 0 && !RuneStart(body[start])
      invariant 0 <= start <= from
      invariant forall k | start < k <= from :: !RuneStart(body[k])
    {
      start := start - 1;
    }
    if Valid(body) {
      CutIffBoundary(body, 0);
      CutIffBoundary(body, start);
      assert RuneLen(body[start..]) > 0;
      var n := RuneLen(body[start..]);
      CutIffBoundary(body[start..], n);
      assert Boundary(body[start..], n);
      if start + n < |body| { assert body[start..][n] == body[start + n]; }
    }
  }

  ghost predicate Sound(body: bytes, start: nat) {
    start < |body| && Valid(body) && Boundary(body, start)
  }

  lemma WholeIsValid(body: bytes, start: nat)
    requires Sound(body, start)
    ensures Valid(body[start..]) && Valid(ELLIPSIS)
  {
    CutIffBoundary(body, start);
    assert RuneLen(ELLIPSIS) == 3;
  }

  /** The front part of `makeExcerpt`'s framing: cut to the limit, with a mark in front unless at the start. */
  method FrameFront(body: bytes, start: nat) returns (fragment: bytes, ghost end: nat)
    requires start < |body|
    ensures |fragment| <= MAX_EXCERPT
    ensures start <= end <= |body| && fragment == Lead(start) + body[start..end]
    ensures Sound(body, start) ==> Valid(fragment) && (end == |body| || start + MAX_EXCERPT - 6 <= end)
  {
    var whole := body[start..];
    fragment := TruncateUtf8(whole, MAX_EXCERPT);
    TruncationIsPrefix(whole, MAX_EXCERPT, fragment);
    hide Valid, RuneLen, IsTruncation;
    if Sound(body, start) {
      WholeIsValid(body, start);
      TruncationFacts(whole, MAX_EXCERPT, fragment);
    }
    end := start + |fragment|;
    if start > 0 {
      var cut := TruncateUtf8(fragment, MAX_EXCERPT - |ELLIPSIS|);
      TruncationIsPrefix(fragment, MAX_EXCERPT - |ELLIPSIS|, cut);
      if Sound(body, start) {
        TruncationFacts(fragment, MAX_EXCERPT - |ELLIPSIS|, cut);
        ConcatValid(ELLIPSIS, cut);
      }
      end := start + |cut|;
      fragment := ELLIPSIS + cut;
    }
  }

  /** Both marks of `makeExcerpt`, from a start inside the body. */
  method Frame(body: bytes, start: nat) returns (fragment: bytes)
    requires start < |body|
    ensures |fragment| <= MAX_EXCERPT
    ensures Sound(body, start) ==>
              && Valid(fragment)
              && exists end: nat ::
                   Shows(body, start, end, fragment) && (end == |body| || start + MAX_EXCERPT - 12 <= end)
  {
    var front, end := FrameFront(body, start);
    if start + |front| >= |body| {
      assert Sound(body, start) ==> Shows(body, start, end, front);
      return front;
    }
    assert Valid(ELLIPSIS) by { assert RuneLen(ELLIPSIS) == 3; }
    hide Valid, RuneLen, IsTruncation;
    var cut := TruncateUtf8(front, MAX_EXCERPT - |ELLIPSIS|);
    TruncationIsPrefix(front, MAX_EXCERPT - |ELLIPSIS|, cut);
    fragment := cut + ELLIPSIS;
    if Sound(body, start) {
      hide Sound;
      TruncationFacts(front, MAX_EXCERPT - |ELLIPSIS|, cut);
      ConcatValid(cut, ELLIPSIS);
      end := start + |cut| - |Lead(start)|;
      assert cut == Lead(start) + body[start..end];
      assert Shows(body, start, end, fragment);
    }
  }
}
