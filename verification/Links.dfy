/**
 `[[slug]]` links of a note body: what `ValidateSlug` and `ExtractLinks` of
 internal/brain/model.go accept and return.
 */
module Links {
  import opened Text

  const MAX_SLUG: nat := 64
  const OPEN := "[["
  const CLOSE := "]]"

  predicate SlugChar(c: char) { 'a' <= c <= 'z' || '0' <= c <= '9' }

  /** Strict lower-case kebab-case: words of letters and digits joined by single dashes. */
  predicate ValidSlug(s: string) {
    && 0 < |s| <= MAX_SLUG
    && (forall i | 0 <= i < |s| :: SlugChar(s[i]) || s[i] == '-')
    && SlugChar(s[0]) && SlugChar(s[|s| - 1])
    && (forall i | 0 < i < |s| :: SlugChar(s[i - 1]) || SlugChar(s[i]))
  }

  predicate Word(s: string) {
    s != "" && forall i | 0 <= i < |s| :: SlugChar(s[i])
  }

  /** A word of letters and digits, or one joined by a dash to further words. */
  predicate Kebab(s: string)
    decreases |s|
  {
    Word(s) || exists i | 0 <= i < |s| :: s[i] == '-' && Word(s[..i]) && Kebab(s[i + 1..])
  }

  /** Slugs are the texts of the grammar `word(-word)*` of at most 64 characters. */
  lemma SlugIff(s: string)
    ensures ValidSlug(s) <==> |s| <= 64 && Kebab(s)
  {
    KebabIff(s);
    hide Kebab;
  }

  predicate Dashed(s: string) {
    && 0 < |s|
    && (forall i | 0 <= i < |s| :: SlugChar(s[i]) || s[i] == '-')
    && SlugChar(s[0]) && SlugChar(s[|s| - 1])
    && (forall i | 0 < i < |s| :: SlugChar(s[i - 1]) || SlugChar(s[i]))
  }

  lemma {:induction false} KebabIff(s: string)
    ensures Dashed(s) <==> Kebab(s)
    decreases |s|
  {
    hide Dashed, Word;
    if Kebab(s) && !Word(s) {
      var i :| 0 <= i < |s| && s[i] == '-' && Word(s[..i]) && Kebab(s[i + 1..]);
      KebabIff(s[i + 1..]);
      DashedJoins(s, i);
    } else if Kebab(s) {
      WordIsDashed(s);
    }
    if Dashed(s) && !Word(s) {
      var i := FirstDash(s);
      KebabIff(s[i + 1..]);
    }
  }

  lemma WordIsDashed(s: string)
    requires Word(s)
    ensures Dashed(s)
  {
  }

  lemma DashedJoins(s: string, i: nat)
    requires i < |s| && s[i] == '-' && Word(s[..i]) && Dashed(s[i + 1..])
    ensures Dashed(s)
  {
    var a, b := s[..i], s[i + 1..];
    assert forall j | 0 <= j < i :: s[j] == a[j];
    assert forall j | i < j < |s| :: s[j] == b[j - i - 1];
  }

  lemma FirstDash(s: string) returns (i: nat)
    requires Dashed(s) && !Word(s)
    ensures i < |s| && s[i] == '-' && Word(s[..i]) && Dashed(s[i + 1..])
  {
    i := 0;
    while s[i] != '-'
      invariant i < |s| && forall j | 0 <= j < i :: s[j] != '-'
      decreases |s| - i
    {
      i := i + 1;
    }
    var b := s[i + 1..];
    assert forall j | 0 <= j < |b| :: b[j] == s[i + 1 + j];
    assert SlugChar(s[i + 1]) by { assert SlugChar(s[i]) || SlugChar(s[i + 1]); }
  }

  // ------------------------------------------------------------- the scan

  /** The targets met by scanning from the left, or `None` where the scan meets an unclosed or invalid link. */
  function Scan(s: string): (r: Option<seq<string>>)
    decreases |s|
  {
    match IndexFrom(s, OPEN, 0)
    case None => Some([])
    case Some(start) =>
      match IndexFrom(s, CLOSE, start + 2)
      case None => None
      case Some(end) =>
        var target := s[start + 2..end];
        if !ValidSlug(target) then None
        else match Scan(s[end + 2..])
             case None => None
             case Some(rest) => Some([target] + rest)
  }

  lemma {:induction false} ScannedAreSlugs(s: string)
    ensures Scan(s).Some? ==> forall t | t in Scan(s).value :: ValidSlug(t)
    decreases |s|
  {
    var start := IndexFrom(s, OPEN, 0);
    if start.Some? {
      var end := IndexFrom(s, CLOSE, start.value + 2);
      if end.Some? { ScannedAreSlugs(s[end.value + 2..]); }
    }
  }

  /** Texts with links between them: `texts[0] [[slugs[0]]] texts[1] [[slugs[1]]] ...`. */
  function Weave(texts: seq<string>, slugs: seq<string>): string
    requires |texts| == |slugs| + 1
  {
    if slugs == [] then texts[0]
    else texts[0] + OPEN + slugs[0] + CLOSE + Weave(texts[1..], slugs[1..])
  }

  predicate OpenAt(s: string, i: int) {
    0 <= i && i + 1 < |s| && s[i] == '[' && s[i + 1] == '['
  }

  lemma AtOpen(s: string, i: int)
    ensures At(s, OPEN, i) <==> OpenAt(s, i)
  {
    if 0 <= i && i + 2 <= |s| { assert s[i..i + 2] == [s[i], s[i + 1]]; }
  }

  /** The text opens no link, not even together with a bracket behind it. */
  ghost predicate Closed(text: string) {
    forall i :: !OpenAt(text + "[", i)
  }

  lemma BracketFreeIsClosed(text: string)
    requires '[' !in text
    ensures Closed(text)
  {
  }

  /** Slugs embedded in texts that open no link of their own come back exactly, in order. */
  lemma {:induction false} ScanRecoversSlugs(texts: seq<string>, slugs: seq<string>)
    requires |texts| == |slugs| + 1
    requires forall i | 0 <= i < |texts| :: Closed(texts[i])
    requires forall i | 0 <= i < |slugs| :: ValidSlug(slugs[i])
    ensures Scan(Weave(texts, slugs)) == Some(slugs)
  {
    if slugs == [] {
      NoLink(texts[0]);
    } else {
      var rest := Weave(texts[1..], slugs[1..]);
      ScanRecoversSlugs(texts[1..], slugs[1..]);
      FirstLink(texts[0], slugs[0], rest);
      assert [slugs[0]] + slugs[1..] == slugs;
    }
  }

  lemma NoLink(text: string)
    requires Closed(text)
    ensures Scan(text) == Some([])
  {
    forall i ensures !OpenAt(text, i) { assert OpenAt(text, i) ==> OpenAt(text + "[", i); }
    NothingOpens(text);
  }

  lemma NothingOpens(text: string)
    requires forall i :: !OpenAt(text, i)
    ensures Scan(text) == Some([])
  {
    IndexIsFirst(text, OPEN, 0);
    forall i ensures !At(text, OPEN, i) { AtOpen(text, i); }
    hide At, OpenAt;
  }

  /** The scan takes the first link of a woven text and goes on behind it. */
  lemma FirstLink(text: string, slug: string, rest: string)
    requires Closed(text) && ValidSlug(slug)
    ensures Scan(text + OPEN + slug + CLOSE + rest) ==
            if Scan(rest).None? then None else Some([slug] + Scan(rest).value)
  {
    var s := text + OPEN + slug + CLOSE + rest;
    var start, end := |text|, |text| + 2 + |slug|;
    assert ']' !in slug;
    hide ValidSlug, Closed;
    assert s == text + OPEN + (slug + CLOSE + rest);
    FirstOpening(text, slug + CLOSE + rest);
    FirstAfter(text + OPEN, slug, CLOSE, rest);
    assert s[start + 2..end] == slug && s[end + 2..] == rest;
    ScanStep(s, start, end);
  }

  /** A link that is not closed, or whose target is no slug, makes the scan fail, whatever follows. */
  lemma ScanFails(text: string, target: string, rest: string)
    requires Closed(text)
    ensures !Contains(rest, CLOSE) ==> Scan(text + OPEN + rest) == None
    ensures ']' !in target && !ValidSlug(target) ==> Scan(text + OPEN + target + CLOSE + rest) == None
  {
    if !Contains(rest, CLOSE) {
      var s := text + OPEN + rest;
      FirstOpening(text, rest);
      IndexIsFirst(s, CLOSE, |text| + 2);
      forall i | |text| + 2 <= i ensures !At(s, CLOSE, i) {
        AtOfConcat(text + OPEN, rest, CLOSE, i);
        assert !At(rest, CLOSE, i - |text| - 2);
      }
      hide At, Closed;
    }
    if ']' !in target && !ValidSlug(target) {
      var s := text + OPEN + target + CLOSE + rest;
      hide ValidSlug;
      assert s == text + OPEN + (target + CLOSE + rest);
      FirstOpening(text, target + CLOSE + rest);
      hide Closed;
      FirstAfter(text + OPEN, target, CLOSE, rest);
      assert s[|text| + 2..|text| + 2 + |target|] == target;
      ScanStep(s, |text|, |text| + 2 + |target|);
    }
  }

  lemma FirstOpening(text: string, after: string)
    requires Closed(text)
    ensures IndexFrom(text + OPEN + after, OPEN, 0) == Some(|text|)
  {
    var s := text + OPEN + after;
    IndexIsFirst(s, OPEN, 0);
    AtOpen(s, |text|);
    forall i | 0 <= i && At(s, OPEN, i) ensures |text| <= i {
      AtOpen(s, i);
      assert i < |text| ==> OpenAt(text + "[", i);
    }
  }

  lemma {:induction false} ScanStep(s: string, start: nat, end: nat)
    requires IndexFrom(s, OPEN, 0) == Some(start)
    requires start + 2 <= |s| && IndexFrom(s, CLOSE, start + 2) == Some(end)
    ensures end + 2 <= |s|
    ensures Scan(s) ==
            if !ValidSlug(s[start + 2..end]) || Scan(s[end + 2..]).None? then None
            else Some([s[start + 2..end]] + Scan(s[end + 2..]).value)
  {
    hide ValidSlug, IndexFrom, At;
  }

  /** A pattern is first found right after a stretch without its first character. */
  lemma FirstAfter(before: string, stretch: string, p: string, after: string)
    requires p != "" && p[0] !in stretch
    ensures IndexFrom(before + stretch + p + after, p, |before|) == Some(|before| + |stretch|)
  {
    var s, k := before + stretch + p + after, |before| + |stretch|;
    IndexIsFirst(s, p, |before|);
    assert s[k..k + |p|] == p;
    assert At(s, p, k);
    forall i | |before| <= i && At(s, p, i) ensures k <= i {
      assert s[i] == s[i..i + |p|][0] == p[0];
      assert forall j | |before| <= j < k :: s[j] == stretch[j - |before|];
    }
  }

  // ------------------------------------------------------------- sorted sets

  /** Byte order of two texts, the order of `sort.Strings` (slugs are ASCII). */
  predicate Less(a: string, b: string) {
    if b == "" then false
    else if a == "" then true
    else if a[0] != b[0] then a[0] < b[0]
    else Less(a[1..], b[1..])
  }

  /** The texts agree up to `i`, where the first one ends or has the smaller character. */
  predicate DifferAt(a: string, b: string, i: nat) {
    i <= |a| && i < |b| && a[..i] == b[..i] && (i == |a| || a[i] < b[i])
  }

  /** A text comes before another exactly when it ends, or has the smaller character, where they differ first. */
  lemma LessIff(a: string, b: string)
    ensures Less(a, b) <==> exists i :: DifferAt(a, b, i)
  {
    if Less(a, b) { var i := FirstDifference(a, b); }
    if i :| DifferAt(a, b, i) { DifferenceDecides(a, b, i); }
  }

  lemma {:induction false} FirstDifference(a: string, b: string) returns (i: nat)
    requires Less(a, b)
    ensures DifferAt(a, b, i)
  {
    i := 0;
    if a != "" && a[0] == b[0] {
      var j := FirstDifference(a[1..], b[1..]);
      i := j + 1;
      assert a[..i] == [a[0]] + a[1..][..j] && b[..i] == [b[0]] + b[1..][..j];
    }
  }

  lemma {:induction false} DifferenceDecides(a: string, b: string, i: nat)
    requires DifferAt(a, b, i)
    ensures Less(a, b)
  {
    if i > 0 {
      assert a[0] == a[..i][0] == b[..i][0] == b[0];
      assert a[1..][..i - 1] == a[..i][1..] && b[1..][..i - 1] == b[..i][1..];
      DifferenceDecides(a[1..], b[1..], i - 1);
    }
  }

  lemma {:induction false} LessTrichotomy(a: string, b: string)
    ensures (Less(a, b) && a != b && !Less(b, a)) || (a == b && !Less(a, b)) || (Less(b, a) && a != b && !Less(a, b))
  {
    if a != "" && b != "" && a[0] == b[0] {
      LessTrichotomy(a[1..], b[1..]);
      assert a == [a[0]] + a[1..] && b == [b[0]] + b[1..];
    }
  }

  lemma {:induction false} LessTransitive(a: string, b: string, c: string)
    requires Less(a, b) && Less(b, c)
    ensures Less(a, c)
  {
    if a != "" && a[0] == b[0] == c[0] { LessTransitive(a[1..], b[1..], c[1..]); }
  }

  predicate StrictlySorted(s: seq<string>) {
    forall i, j | 0 <= i < j < |s| :: Less(s[i], s[j])
  }

  function Elements(s: seq<string>): set<string> { set x | x in s }

  function Insert(s: seq<string>, x: string): (r: seq<string>) {
    if s == [] || Less(x, s[0]) then [x] + s
    else if s[0] == x then s
    else [s[0]] + Insert(s[1..], x)
  }

  lemma {:induction false} InsertSorted(s: seq<string>, x: string)
    requires StrictlySorted(s)
    ensures StrictlySorted(Insert(s, x)) && Elements(Insert(s, x)) == Elements(s) + {x}
  {
    if s != [] {
      LessTrichotomy(x, s[0]);
      if Less(x, s[0]) {
        forall j | 0 <= j < |s| ensures Less(x, s[j]) {
          if j > 0 { LessTransitive(x, s[0], s[j]); }
        }
      } else if s[0] != x {
        TailElements(s);
        InsertSorted(s[1..], x);
        PrependSorted(s[0], Insert(s[1..], x), s, x);
      }
    }
  }

  lemma PrependSorted(h: string, r: seq<string>, s: seq<string>, x: string)
    requires StrictlySorted(s) && s != [] && s[0] == h && Less(h, x)
    requires StrictlySorted(r) && Elements(r) == Elements(s[1..]) + {x}
    ensures StrictlySorted([h] + r) && Elements([h] + r) == Elements(s) + {x}
  {
    forall j | 0 <= j < |r| ensures Less(h, r[j]) {
      assert r[j] in Elements(r);
      if r[j] != x {
        var k :| 0 <= k < |s[1..]| && s[1..][k] == r[j];
        assert s[k + 1] == r[j];
      }
    }
    assert s == [h] + s[1..];
    assert Elements([h] + r) == {h} + Elements(r);
    assert Elements(s) == {h} + Elements(s[1..]);
  }

  /** A strictly sorted sequence is determined by its elements. */
  lemma {:induction false} SortedUnique(a: seq<string>, b: seq<string>)
    requires StrictlySorted(a) && StrictlySorted(b) && Elements(a) == Elements(b)
    ensures a == b
  {
    if a == [] || b == [] {
      EmptyElements(a);
      EmptyElements(b);
    } else {
      assert a[0] in Elements(b) && b[0] in Elements(a);
      LessTrichotomy(a[0], b[0]);
      LessTrichotomy(a[0], a[0]);
      var i :| 0 <= i < |b| && b[i] == a[0];
      var j :| 0 <= j < |a| && a[j] == b[0];
      assert a[0] == b[0];
      TailElements(a);
      TailElements(b);
      SortedUnique(a[1..], b[1..]);
      assert a == [a[0]] + a[1..] && b == [b[0]] + b[1..];
    }
  }

  lemma EmptyElements(a: seq<string>)
    ensures Elements(a) == {} <==> a == []
  {
    if a != [] { assert a[0] in Elements(a); }
  }

  lemma TailElements(a: seq<string>)
    requires StrictlySorted(a) && a != []
    ensures StrictlySorted(a[1..]) && Elements(a[1..]) == Elements(a) - {a[0]}
  {
    LessTrichotomy(a[0], a[0]);
    assert a == [a[0]] + a[1..];
    assert forall i | 0 <= i < |a[1..]| :: a[1..][i] == a[i + 1];
  }

  function SortSet(ts: seq<string>): (r: seq<string>) {
    if ts == [] then [] else Insert(SortSet(ts[1..]), ts[0])
  }

  lemma {:induction false} SortSetSorts(ts: seq<string>)
    ensures StrictlySorted(SortSet(ts)) && Elements(SortSet(ts)) == Elements(ts)
  {
    if ts != [] {
      SortSetSorts(ts[1..]);
      InsertSorted(SortSet(ts[1..]), ts[0]);
      assert ts == [ts[0]] + ts[1..];
    }
  }

  /** The links of a body: the sorted set of all scanned targets, if the scan succeeds. */
  function LinksOf(body: string): Option<seq<string>> {
    match Scan(body)
    case None => None
    case Some(targets) => Some(SortSet(targets))
  }

  lemma NothingToScan(s: string)
    requires IndexFrom(s, OPEN, 0).None?
    ensures Scan(s) == Some([])
  {
  }

  lemma UnclosedLink(s: string, start: nat)
    requires IndexFrom(s, OPEN, 0) == Some(start) && start + 2 <= |s| && IndexFrom(s, CLOSE, start + 2).None?
    ensures Scan(s).None?
  {
  }

  lemma CollectStep(s: string, start: nat, end: nat)
    requires IndexFrom(s, OPEN, 0) == Some(start)
    requires start + 2 <= |s| && IndexFrom(s, CLOSE, start + 2) == Some(end)
    ensures end + 2 <= |s|
    ensures !ValidSlug(s[start + 2..end]) ==> Scan(s).None?
    ensures ValidSlug(s[start + 2..end]) ==>
              && (Scan(s).None? <==> Scan(s[end + 2..]).None?)
              && (Scan(s).Some? ==> Elements(Scan(s).value) == {s[start + 2..end]} + Elements(Scan(s[end + 2..]).value))
  {
    ScanStep(s, start, end);
    hide Scan, ValidSlug, IndexFrom, At;
  }

  /** What one round of the loop of `ExtractLinks` meets. */
  datatype Next = NoMore | Broken | Target(target: string, rest: string)

  ghost predicate IsNext(s: string, n: Next) {
    match n
    case NoMore => Scan(s) == Some([])
    case Broken => Scan(s).None?
    case Target(target, rest) =>
      && |rest| < |s| && (Scan(s).None? <==> Scan(rest).None?)
      && (Scan(s).Some? ==> Elements(Scan(s).value) == {target} + Elements(Scan(rest).value))
  }

  function NextLink(s: string): Next {
    match IndexFrom(s, OPEN, 0)
    case None => NoMore
    case Some(start) =>
      match IndexFrom(s, CLOSE, start + 2)
      case None => Broken
      case Some(end) =>
        var target := s[start + 2..end];
        if ValidSlug(target) then Target(target, s[end + 2..]) else Broken
  }

  lemma NextLinkIsNext(s: string)
    ensures IsNext(s, NextLink(s))
  {
    assert |OPEN| == |CLOSE| == 2;
    hide Scan, ValidSlug, IndexFrom, At, Elements, OPEN, CLOSE;
    var start := IndexFrom(s, OPEN, 0);
    if start.None? { NothingToScan(s); }
    else {
      var end := IndexFrom(s, CLOSE, start.value + 2);
      if end.None? { UnclosedLink(s, start.value); }
      else { CollectStep(s, start.value, end.value); }
    }
  }

  /** What the loop has found so far and what it has left make up the whole scan. */
  ghost predicate Collected(body: string, found: set<string>, rest: string) {
    && (Scan(body).None? <==> Scan(rest).None?)
    && (Scan(body).Some? ==> Elements(Scan(body).value) == found + Elements(Scan(rest).value))
  }

  lemma CollectNext(body: string, found: set<string>, s: string, n: Next)
    requires Collected(body, found, s) && IsNext(s, n)
    ensures n.NoMore? ==> Scan(body).Some? && Elements(Scan(body).value) == found
    ensures n.Broken? ==> Scan(body).None?
    ensures n.Target? ==> Collected(body, found + {n.target}, n.rest) && |n.rest| < |s|
  {
    assert Elements([]) == {};
    hide Scan, Elements;
  }

  /** The loop of `ExtractLinks`, collecting the targets seen so far. */
  method CollectTargets(body: string) returns (seen: Option<set<string>>)
    ensures seen == if Scan(body).None? then None else Some(Elements(Scan(body).value))
  {
    var found: set<string> := {};
    var rest := body;
    assert Collected(body, found, rest);
    hide *;
    var next := NextLink(rest);
    NextLinkIsNext(rest);
    while next.Target?
      invariant Collected(body, found, rest) && IsNext(rest, next)
      decreases |rest|
    {
      CollectNext(body, found, rest, next);
      found, rest := found + {next.target}, next.rest;
      next := NextLink(rest);
      NextLinkIsNext(rest);
    }
    CollectNext(body, found, rest, next);
    return if next.NoMore? then Some(found) else None;
  }

  /**
   `ExtractLinks`: fails exactly where the scan does, and otherwise returns the scanned targets,
   sorted and without repeats.
   */
  method ExtractLinks(body: string) returns (r: Option<seq<string>>)
    ensures r == LinksOf(body)
    ensures r.None? <==> Scan(body).None?
    ensures r.Some? ==> StrictlySorted(r.value) && Elements(r.value) == Elements(Scan(body).value)
  {
    var seen := CollectTargets(body);
    hide Scan;
    if seen.None? {
      return None;
    }
    var links := Sorted(seen.value);
    SortSetSorts(Scan(body).value);
    SortedUnique(links, SortSet(Scan(body).value));
    r := Some(links);
  }

  method Sorted(elements: set<string>) returns (s: seq<string>)
    ensures StrictlySorted(s) && Elements(s) == elements
  {
    s := [];
    var left := elements;
    while left != {}
      invariant left <= elements
      invariant StrictlySorted(s) && Elements(s) == elements - left
    {
      var x :| x in left;
      InsertSorted(s, x);
      s := Insert(s, x);
      left := left - {x};
    }
  }
}
