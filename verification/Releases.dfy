/**
 Release identifiers and their order (internal/bundle/manifest.go).
 */
module Releases {
  import opened Text

  /**
   The two closed formats: the historical `p15.<a>.<b>` and the semantic `v<a>.<b>.<c>`. A field
   is kept as the digits that are written, so two identifiers are equal when their texts are.
   */
  datatype Release = Legacy(minor: string, patch: string) | Semantic(major: string, minor: string, patch: string)

  predicate Digits(s: string) {
    s != "" && forall i | 0 <= i < |s| :: '0' <= s[i] <= '9'
  }

  /** Digits without a leading zero. */
  predicate Canonical(s: string) {
    Digits(s) && (|s| > 1 ==> s[0] != '0')
  }

  /** `ValidRelease`: only semantic releases are required to be canonical. */
  predicate ValidRelease(r: Release) {
    match r
    case Legacy(minor, patch) => Digits(minor) && Digits(patch)
    case Semantic(major, minor, patch) => Canonical(major) && Canonical(minor) && Canonical(patch)
  }

  function Digit(c: char): nat
    requires '0' <= c <= '9'
  {
    c as int - '0' as int
  }

  function Value(s: string): nat
    requires forall i | 0 <= i < |s| :: '0' <= s[i] <= '9'
  {
    if s == "" then 0 else 10 * Value(s[..|s| - 1]) + Digit(s[|s| - 1])
  }

  const MAX_FIELD: nat := 0xFFFF_FFFF_FFFF_FFFF

  /** `strconv.ParseUint(s, 10, 64)` on digits. */
  function ParseField(s: string): Option<nat>
    requires Digits(s)
  {
    if Value(s) <= MAX_FIELD then Some(Value(s)) else None
  }

  /** The numbers a release is compared by, most significant first: its generation and its three fields. */
  function Key(r: Release): (k: seq<nat>)
    requires ValidRelease(r)
    ensures |k| == 4
  {
    match r
    case Legacy(minor, patch) => [0, 15, Value(minor), Value(patch)]
    case Semantic(major, minor, patch) => [1, Value(major), Value(minor), Value(patch)]
  }

  predicate Comparable(r: Release)
    requires ValidRelease(r)
  {
    forall i | 0 <= i < 4 :: Key(r)[i] <= MAX_FIELD
  }

  /** Lexicographic order of keys. */
  predicate Less(a: seq<nat>, b: seq<nat>)
    requires |a| == |b|
  {
    a != [] && (a[0] < b[0] || (a[0] == b[0] && Less(a[1..], b[1..])))
  }

  lemma {:induction false} LessTotal(a: seq<nat>, b: seq<nat>)
    requires |a| == |b|
    ensures Less(a, b) || Less(b, a) || a == b
    ensures !(Less(a, b) && Less(b, a)) && !Less(a, a)
  {
    if a != [] {
      LessTotal(a[1..], b[1..]);
      if a[1..] == b[1..] && a[0] == b[0] { assert a == [a[0]] + a[1..] && b == [b[0]] + b[1..]; }
    }
  }

  lemma {:induction false} LessTransitive(a: seq<nat>, b: seq<nat>, c: seq<nat>)
    requires |a| == |b| == |c| && Less(a, b) && Less(b, c)
    ensures Less(a, c)
  {
    if a[0] == b[0] == c[0] { LessTransitive(a[1..], b[1..], c[1..]); }
  }

  lemma {:induction false} FirstDifference(a: seq<nat>, b: seq<nat>, i: nat)
    requires |a| == |b| && i < |a| && a[..i] == b[..i] && a[i] < b[i]
    ensures Less(a, b)
  {
    if i > 0 {
      assert a[0] == a[..i][0] == b[..i][0] == b[0];
      assert a[1..][..i - 1] == a[..i][1..] && b[1..][..i - 1] == b[..i][1..];
      FirstDifference(a[1..], b[1..], i - 1);
    }
  }

  /** `releaseOrder`. */
  method ReleaseOrder(r: Release) returns (k: Option<seq<nat>>)
    requires ValidRelease(r)
    ensures k == if Comparable(r) then Some(Key(r)) else None
  {
    var generation, fields := 0, ["15", "", ""];
    match r {
      case Legacy(minor, patch) => fields := fields[1 := minor][2 := patch];
      case Semantic(major, minor, patch) => generation, fields := 1, [major, minor, patch];
    }
    assert Value("15") == 15 by { assert "15"[..1] == "1" && "1"[..0] == ""; }
    assert forall i | 0 <= i < 3 :: Digits(fields[i]) && Value(fields[i]) == Key(r)[i + 1];
    var parts: seq<nat> := [generation];
    for i := 0 to 3
      invariant |parts| == i + 1 && parts == Key(r)[..i + 1]
      invariant forall j | 0 <= j <= i :: Key(r)[j] <= MAX_FIELD
    {
      var value := ParseField(fields[i]);
      if value.None? {
        return None;
      }
      parts := parts + [value.value];
    }
    assert parts == Key(r);
    return Some(parts);
  }

  /** `CompareRelease` decides the order of keys, and fails exactly when a field does not fit 64 bits. */
  method CompareRelease(left: Release, right: Release) returns (order: Option<int>)
    requires ValidRelease(left) && ValidRelease(right)
    ensures order.Some? <==> Comparable(left) && Comparable(right)
    ensures order.Some? ==>
              && -1 <= order.value <= 1
              && (order.value < 0 <==> Less(Key(left), Key(right)))
              && (order.value > 0 <==> Less(Key(right), Key(left)))
  {
    var l := ReleaseOrder(left);
    if l.None? {
      return None;
    }
    var r := ReleaseOrder(right);
    if r.None? {
      return None;
    }
    LessTotal(l.value, r.value);
    for i := 0 to 4
      invariant l.value[..i] == r.value[..i]
    {
      if l.value[i] < r.value[i] {
        FirstDifference(l.value, r.value, i);
        return Some(-1);
      }
      if l.value[i] > r.value[i] {
        FirstDifference(r.value, l.value, i);
        return Some(1);
      }
      assert l.value[..i + 1] == l.value[..i] + [l.value[i]] && r.value[..i + 1] == r.value[..i] + [r.value[i]];
    }
    assert l.value[..4] == l.value && r.value[..4] == r.value;
    return Some(0);
  }

  // -------------------------------------------------------- what the order is

  /** The digits stand for their number in the decimal system. */
  lemma {:induction false} ValueIsDecimal(a: string, b: string)
    requires (forall i | 0 <= i < |a| :: '0' <= a[i] <= '9') && (forall i | 0 <= i < |b| :: '0' <= b[i] <= '9')
    ensures Value(a + b) == Value(a) * Power10(|b|) + Value(b)
    ensures |b| == 1 ==> Value(b) == b[0] as int - '0' as int
    ensures Value(b) < Power10(|b|)
  {
    if b == "" {
      assert a + b == a;
    } else {
      var c, last := b[..|b| - 1], b[|b| - 1];
      assert (a + b)[..|a + b| - 1] == a + c;
      ValueIsDecimal(a, c);
      Shifted(Value(a), Power10(|c|), Value(c), Digit(last));
      if |b| == 1 { assert c == ""; }
    }
  }

  lemma Shifted(a: nat, p: nat, c: nat, d: nat)
    ensures 10 * (a * p + c) + d == a * (10 * p) + (10 * c + d)
  {
  }

  function Power10(n: nat): nat {
    if n == 0 then 1 else 10 * Power10(n - 1)
  }

  /**
   Every legacy release comes before every semantic one. Semantic releases are ordered by their
   first field, then by the second, then by the third, and legacy releases by their two, as numbers.
   */
  lemma OrderMeans(a: Release, b: Release)
    requires ValidRelease(a) && ValidRelease(b)
    ensures a.Legacy? && b.Semantic? ==> Less(Key(a), Key(b))
    ensures a.Semantic? && b.Legacy? ==> !Less(Key(a), Key(b))
    ensures a.Legacy? && b.Legacy? ==>
              (Less(Key(a), Key(b)) <==>
               || Value(a.minor) < Value(b.minor)
               || (Value(a.minor) == Value(b.minor) && Value(a.patch) < Value(b.patch)))
    ensures a.Semantic? && b.Semantic? ==>
              (Less(Key(a), Key(b)) <==>
               || Value(a.major) < Value(b.major)
               || (Value(a.major) == Value(b.major) && Value(a.minor) < Value(b.minor))
               || (Value(a.major) == Value(b.major) && Value(a.minor) == Value(b.minor)
                   && Value(a.patch) < Value(b.patch)))
  {
    var k, l := Key(a), Key(b);
    assert Less(k, l) <==> k[0] < l[0] || (k[0] == l[0] && Less(k[1..], l[1..]));
    assert Less(k[1..], l[1..]) <==> k[1] < l[1] || (k[1] == l[1] && Less(k[2..], l[2..])) by {
      assert k[1..][1..] == k[2..] && l[1..][1..] == l[2..];
    }
    assert Less(k[2..], l[2..]) <==> k[2] < l[2] || (k[2] == l[2] && k[3] < l[3]) by {
      assert k[2..][1..] == k[3..] && l[2..][1..] == l[3..];
      assert Less(k[3..], l[3..]) <==> k[3] < l[3] by { assert !Less(k[3..][1..], l[3..][1..]); }
    }
  }

  /** A release can be compared exactly when its numbers fit 64 bits. */
  lemma ComparableMeans(r: Release)
    requires ValidRelease(r)
    ensures Comparable(r) <==>
            && Value(r.minor) <= 18446744073709551615 && Value(r.patch) <= 18446744073709551615
            && (r.Semantic? ==> Value(r.major) <= 18446744073709551615)
  {
    var k := Key(r);
    assert Comparable(r) <==> k[0] <= MAX_FIELD && k[1] <= MAX_FIELD && k[2] <= MAX_FIELD && k[3] <= MAX_FIELD;
  }

  // ------------------------------------------------- releases with equal keys

  lemma {:induction false} CanonicalIsLarge(s: string)
    requires Canonical(s) && |s| > 1
    ensures Value(s) >= 10
    decreases |s|
  {
    if |s| > 2 {
      CanonicalIsLarge(s[..|s| - 1]);
    } else {
      assert s[..1] == [s[0]] && s[..1][..0] == "";
    }
  }

  /** Canonical digits are determined by the number they write. */
  lemma {:induction false} CanonicalInjective(a: string, b: string)
    requires Canonical(a) && Canonical(b) && Value(a) == Value(b)
    ensures a == b
    decreases |a|
  {
    var p, q := a[..|a| - 1], b[..|b| - 1];
    assert a == p + [a[|a| - 1]] && b == q + [b[|b| - 1]];
    assert Value(p) == Value(q) && a[|a| - 1] == b[|b| - 1];
    if |a| > 1 && |b| > 1 {
      CanonicalInjective(p, q);
    } else {
      if |a| > 1 { CanonicalIsLarge(a); }
      if |b| > 1 { CanonicalIsLarge(b); }
    }
  }

  /** Different releases compare as equal exactly when both are legacy releases that write the same numbers. */
  lemma EqualKeys(a: Release, b: Release)
    requires ValidRelease(a) && ValidRelease(b) && a != b
    ensures Key(a) == Key(b) <==>
            a.Legacy? && b.Legacy? && Value(a.minor) == Value(b.minor) && Value(a.patch) == Value(b.patch)
  {
    if Key(a) == Key(b) {
      assert Key(a)[0] == Key(b)[0] && Key(a)[1] == Key(b)[1] && Key(a)[2] == Key(b)[2] && Key(a)[3] == Key(b)[3];
      if a.Semantic? {
        CanonicalInjective(a.major, b.major);
        CanonicalInjective(a.minor, b.minor);
        CanonicalInjective(a.patch, b.patch);
      }
    }
  }

  /** `p15.1.0` and `p15.01.0` are two releases of which neither is older. */
  lemma LeadingZero()
    ensures var a, b := Legacy("1", "0"), Legacy("01", "0");
            ValidRelease(a) && ValidRelease(b) && a != b && Key(a) == Key(b)
  {
    assert "01"[..1] == "0" && "0"[..0] == "" && "1"[..0] == "";
    assert Value("01") == 10 * Value("0") + 1;
  }
}
