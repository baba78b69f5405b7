/**
 Go's `strings` operations used by the note format and the link scanner, on
 sequences of Unicode scalar values.
 */
module Text {

  datatype Option<+T> = None | Some(value: T)

  /** `unicode.IsSpace`. */
  predicate IsSpace(c: char) {
    || '\t' <= c <= '\r'
    || c == ' ' || c == '\U{0085}' || c == '\U{00A0}' || c == '\U{1680}'
    || '\U{2000}' <= c <= '\U{200A}'
    || c == '\U{2028}' || c == '\U{2029}' || c == '\U{202F}' || c == '\U{205F}' || c == '\U{3000}'
  }

  function TrimLeft(s: string): (r: string)
    ensures |r| <= |s| && r == s[|s| - |r|..]
    ensures r == "" || !IsSpace(r[0])
    ensures forall i | 0 <= i < |s| - |r| :: IsSpace(s[i])
  {
    if s == "" || !IsSpace(s[0]) then s else TrimLeft(s[1..])
  }

  function TrimRight(s: string): (r: string)
    ensures r <= s
    ensures r == "" || !IsSpace(r[|r| - 1])
    ensures forall i | |r| <= i < |s| :: IsSpace(s[i])
  {
    if s == "" || !IsSpace(s[|s| - 1]) then s else TrimRight(s[..|s| - 1])
  }

  /** `strings.TrimSpace`. */
  function TrimSpace(s: string): (r: string)
    ensures Trimmed(r)
    ensures Trimmed(s) ==> r == s
  {
    TrimRight(TrimLeft(s))
  }

  predicate Trimmed(s: string) {
    s == "" || (!IsSpace(s[0]) && !IsSpace(s[|s| - 1]))
  }

  /** Trailing white space never changes what trimming leaves of a trimmed text. */
  lemma TrimAfterNewline(s: string)
    requires Trimmed(s)
    ensures TrimSpace(s + "\n") == s
  {
    var t := s + "\n";
    assert t[..|t| - 1] == s;
    if s == "" {
      assert t[1..] == "";
    } else {
      assert TrimLeft(t) == t;
    }
  }

  /** `p` occurs in `s` at index `i`. */
  predicate At<T(==)>(s: seq<T>, p: seq<T>, i: int) {
    0 <= i && i + |p| <= |s| && s[i..i + |p|] == p
  }

  lemma AtOfConcat<T>(a: seq<T>, b: seq<T>, p: seq<T>, i: int)
    ensures At(a, p, i) ==> At(a + b, p, i)
    ensures At(b, p, i) ==> At(a + b, p, i + |a|)
    ensures At(a + b, p, i) && i + |p| <= |a| ==> At(a, p, i)
    ensures At(a + b, p, i) && |a| <= i ==> At(b, p, i - |a|)
  {
    var ab := a + b;
    if At(a, p, i) { assert ab[i..i + |p|] == a[i..i + |p|]; }
    if At(b, p, i) { assert ab[i + |a|..i + |a| + |p|] == b[i..i + |p|]; }
    if At(ab, p, i) && i + |p| <= |a| { assert ab[i..i + |p|] == a[i..i + |p|]; }
    if At(ab, p, i) && |a| <= i { assert ab[i..i + |p|] == b[i - |a|..i - |a| + |p|]; }
  }

  predicate StartsWith(s: string, p: string) {
    |p| <= |s| && s[..|p|] == p
  }

  ghost predicate Contains<T>(s: seq<T>, p: seq<T>) {
    exists i :: At(s, p, i)
  }

  /** `strings.Index(s[from:], p)`, reported as an index of `s`: the first occurrence at or after `from`. */
  function IndexFrom<T(==)>(s: seq<T>, p: seq<T>, from: nat): (r: Option<nat>)
    requires from <= |s|
    ensures r.Some? ==> from <= r.value && r.value + |p| <= |s|
    decreases |s| - from
  {
    if At(s, p, from) then Some(from)
    else if from == |s| then None
    else IndexFrom(s, p, from + 1)
  }

  lemma {:induction false} IndexIsFirst<T>(s: seq<T>, p: seq<T>, from: nat)
    requires from <= |s|
    ensures IndexFrom(s, p, from).Some? ==> At(s, p, IndexFrom(s, p, from).value)
    ensures forall i | from <= i && At(s, p, i) :: IndexFrom(s, p, from).Some? && IndexFrom(s, p, from).value <= i
    decreases |s| - from
  {
    if !At(s, p, from) && from < |s| {
      IndexIsFirst(s, p, from + 1);
      hide At;
    }
  }

  /** Go's `len` of a string: the number of bytes of its UTF-8 encoding. */
  function ByteLen(s: string): nat {
    if s == "" then 0 else EncodedLen(s[0]) + ByteLen(s[1..])
  }

  function EncodedLen(c: char): nat {
    if c < '\U{0080}' then 1 else if c < '\U{0800}' then 2 else if c < '\U{10000}' then 3 else 4
  }
}
