/**
 The Markdown sources of the Brain (internal/brain/store.go and index.go): what they say at a
 clock reading, and how they are scanned for a rebuild of the cache.
 */
module BrainSources {
  import opened Text
  import opened Links
  import opened Notes
  import opened BrainIndex

  const MAX_NOTES: nat := 10000
  const MAX_AGGREGATE: nat := 64 * 1024 * 1024

  /** File contents by slug. */
  type Files = map<string, string>

  /** The curated and the working directory. */
  datatype Sources = Sources(curated: Files, working: Files) {
    ghost function Slugs(): set<string> { curated.Keys + working.Keys }

    function With(slug: string, data: string): Sources { this.(working := working[slug := data]) }
  }

  // ------------------------------------------------- reading note sources

  /** `ReadSource`: parses one source file and redacts it. */
  function ReadSource(w: World, data: string, slug: string, trust: Trust, now: int): Option<Note> {
    match Parse(w, data, slug, trust, now)
    case None => None
    case Some(note) => Some(Redacted(w, note))
  }

  function Redacted(w: World, note: Note): Note {
    note.(
      metadata := note.metadata.(
        title := w.redact(note.metadata.title),
        consoleSummary := w.redact(note.metadata.consoleSummary),
        provenance := w.redact(note.metadata.provenance)),
      body := w.redact(note.body))
  }

  /** The slug a file is read under is the slug of the note. */
  lemma ParsedSlug(w: World, data: string, slug: string, trust: Trust, now: int)
    requires slug != "" && Parse(w, data, slug, trust, now).Some?
    ensures Parse(w, data, slug, trust, now).value.metadata.slug == slug
    ensures Parse(w, data, slug, trust, now).value.trust == trust
  {
    hide LinksOf, WellFormed, Separate, Unix, ByteLen;
  }

  /** What one file says at clock reading `t`. */
  function FileEntry(w: World, data: string, slug: string, trust: Trust, t: int): Option<Entry> {
    match Parse(w, data, slug, trust, t)
    case None => None
    case Some(note) => Some(Entry(note, ByteLen(data)))
  }

  /** What the source of one slug says at clock reading `t`. */
  function SourceAt(w: World, src: Sources, slug: string, t: int): Option<Entry> {
    if slug in src.working then FileEntry(w, src.working[slug], slug, Working, t)
    else if slug in src.curated then FileEntry(w, src.curated[slug], slug, Curated, t)
    else None
  }

  /** No slug is in both directories, and every source can be read at the clock reading given for it. */
  ghost predicate ReadableSince(w: World, src: Sources, since: map<string, int>) {
    && src.curated.Keys !! src.working.Keys && since.Keys == src.Slugs()
    && forall s | s in since :: SourceAt(w, src, s, since[s]).Some?
  }

  /** What the sources say, each at its own clock reading. */
  ghost function EntriesSince(w: World, src: Sources, since: map<string, int>): (m: map<string, Entry>)
    requires ReadableSince(w, src, since)
    ensures m.Keys == since.Keys && forall s | s in since :: SourceAt(w, src, s, since[s]) == Some(m[s])
  {
    map s | s in since :: SourceAt(w, src, s, since[s]).value
  }

  /** One clock reading for all sources. */
  ghost function AllAt(src: Sources, now: int): (since: map<string, int>)
    ensures since.Keys == src.Slugs() && forall s | s in since :: since[s] == now
  {
    map s | s in src.Slugs() :: now
  }

  ghost predicate Readable(w: World, src: Sources, now: int) {
    ReadableSince(w, src, AllAt(src, now))
  }

  ghost function Entries(w: World, src: Sources, now: int): map<string, Entry>
    requires Readable(w, src, now)
  {
    EntriesSince(w, src, AllAt(src, now))
  }

  /** Writing one working file, or reading it again, replaces one entry. */
  lemma EntriesAfterWrite(w: World, src: Sources, since: map<string, int>, slug: string, data: string, t: int)
    requires ReadableSince(w, src, since) && slug !in src.curated && FileEntry(w, data, slug, Working, t).Some?
    ensures var after, stamps := src.With(slug, data), since[slug := t];
            && ReadableSince(w, after, stamps)
            && EntriesSince(w, after, stamps)
               == EntriesSince(w, src, since)[slug := FileEntry(w, data, slug, Working, t).value]
  {
    var after, stamps := src.With(slug, data), since[slug := t];
    hide FileEntry;
    forall s | s in stamps
      ensures SourceAt(w, after, s, stamps[s]) ==
              if s == slug then FileEntry(w, data, slug, Working, t) else SourceAt(w, src, s, since[s])
    {
    }
    assert after.Slugs() == src.Slugs() + {slug};
    hide SourceAt, EntriesSince;
    assert ReadableSince(w, after, stamps);
    SameMap(
      EntriesSince(w, after, stamps),
      EntriesSince(w, src, since)[slug := FileEntry(w, data, slug, Working, t).value]);
  }

  /** A source that can be read can be read later, and says the same up to its expiry. */
  lemma SourceLater(w: World, src: Sources, slug: string, t: int, later: int)
    requires SourceAt(w, src, slug, t).Some? && t <= later
    ensures var e := SourceAt(w, src, slug, t).value;
            && e.note.expired == Expired(w, e.note.metadata, t)
            && SourceAt(w, src, slug, later) == Some(e.(note := e.note.(expired := Expired(w, e.note.metadata, later))))
  {
    hide Parse, Expired, ByteLen;
    if slug in src.working { ParsedLater(w, src.working[slug], slug, Working, t, later); }
    else { ParsedLater(w, src.curated[slug], slug, Curated, t, later); }
  }

  lemma ParsedLater(w: World, data: string, slug: string, trust: Trust, now: int, later: int)
    requires Parse(w, data, slug, trust, now).Some? && now <= later
    ensures var note := Parse(w, data, slug, trust, now).value;
            && note.expired == Expired(w, note.metadata, now)
            && Parse(w, data, slug, trust, later) == Some(note.(expired := Expired(w, note.metadata, later)))
  {
    hide LinksOf, WellFormed, Separate, Unix, ByteLen, Expired;
  }

  /** No source has been read later than `now`. */
  ghost predicate Until(since: map<string, int>, now: int) {
    forall s | s in since :: since[s] <= now
  }

  /** What a rebuild at clock reading `now` sees of sources read earlier. */
  lemma EntriesLater(w: World, src: Sources, since: map<string, int>, now: int)
    requires ReadableSince(w, src, since) && Until(since, now)
    ensures Readable(w, src, now)
    ensures var m, n := EntriesSince(w, src, since), Entries(w, src, now);
            && m.Keys == n.Keys == since.Keys
            && forall s | s in since ::
                 && m[s].note.expired == Expired(w, m[s].note.metadata, since[s])
                 && n[s] == m[s].(note := m[s].note.(expired := Expired(w, m[s].note.metadata, now)))
  {
    hide SourceAt, Expired;
    forall s | s in since
      ensures var e := SourceAt(w, src, s, since[s]).value;
              && e.note.expired == Expired(w, e.note.metadata, since[s])
              && SourceAt(w, src, s, now) == Some(e.(note := e.note.(expired := Expired(w, e.note.metadata, now))))
    {
      SourceLater(w, src, s, since[s], now);
    }
    hide EntriesSince;
  }

  /** The date of a later clock reading is not earlier. */
  ghost predicate CalendarAdvances(w: World) {
    forall a, b | a <= b :: w.today(a) <= w.today(b)
  }

  /** The review date of a note passes between two clock readings. */
  ghost predicate Passes(w: World, m: Metadata, from: int, to: int) {
    !Expired(w, m, from) && Expired(w, m, to)
  }

  lemma ExpiryOnlyPasses(w: World, m: Metadata, from: int, to: int)
    requires CalendarAdvances(w) && from <= to
    ensures Expired(w, m, from) != Expired(w, m, to) <==> Passes(w, m, from, to)
  {
  }

  /**
   Two caches agree in every column but `expired`, and there differ exactly for the notes whose
   review date has passed since they were read.
   */
  ghost predicate SameUpToExpiry(
      a: Tables, b: Tables, w: World, m: map<string, Entry>, since: map<string, int>, now: int)
    requires m.Keys == since.Keys
  {
    && a.console == b.console && a.links == b.links && a.fts == b.fts && a.notes.Keys == b.notes.Keys == since.Keys
    && forall s | s in since ::
         && a.notes[s] == b.notes[s].(expired := a.notes[s].expired)
         && (a.notes[s].expired != b.notes[s].expired <==> Passes(w, m[s].note.metadata, since[s], now))
  }

  /**
   Tables that were kept current one source at a time, at whatever clock readings, are what a
   rebuild at any later reading gives, up to review dates that have passed.
   */
  lemma CurrentUpToExpiry(
      a: Tables, b: Tables, w: World, view: Metadata -> ConsoleRow, src: Sources, since: map<string, int>, now: int)
    requires CalendarAdvances(w) && ReadableSince(w, src, since) && Until(since, now)
    requires IsRebuild(a, w, view, EntriesSince(w, src, since))
    requires Readable(w, src, now) && IsRebuild(b, w, view, Entries(w, src, now))
    ensures SameUpToExpiry(a, b, w, EntriesSince(w, src, since), since, now)
  {
    hide *;
    EntriesLater(w, src, since, now);
    RowsUpToExpiry(a, b, w, view, EntriesSince(w, src, since), Entries(w, src, now), since, now);
  }

  lemma RowsUpToExpiry(
      a: Tables, b: Tables, w: World, view: Metadata -> ConsoleRow,
      m: map<string, Entry>, n: map<string, Entry>, since: map<string, int>, now: int)
    requires CalendarAdvances(w) && m.Keys == n.Keys == since.Keys && Until(since, now)
    requires forall s | s in since ::
               && m[s].note.expired == Expired(w, m[s].note.metadata, since[s])
               && n[s] == m[s].(note := m[s].note.(expired := Expired(w, m[s].note.metadata, now)))
    requires IsRebuild(a, w, view, m) && IsRebuild(b, w, view, n)
    ensures SameUpToExpiry(a, b, w, m, since, now)
  {
    hide IsRebuild, Expired, Passes, CalendarAdvances;
    SameRowsUpToExpiry(a, b, w, view, m, n);
    forall s | s in since
      ensures a.notes[s].expired != b.notes[s].expired <==> Passes(w, m[s].note.metadata, since[s], now)
    {
      ExpiryOnlyPasses(w, m[s].note.metadata, since[s], now);
    }
  }

  /** So such tables are a rebuild exactly when no review date has passed. */
  lemma SameIffNothingPassed(a: Tables, b: Tables, w: World, m: map<string, Entry>, since: map<string, int>, now: int)
    requires m.Keys == since.Keys && SameUpToExpiry(a, b, w, m, since, now)
    ensures a == b <==> forall s | s in since :: !Passes(w, m[s].note.metadata, since[s], now)
  {
    hide Passes;
    if forall s | s in since :: !Passes(w, m[s].note.metadata, since[s], now) { SameMap(a.notes, b.notes); }
  }

  // ------------------------------------------- sanitised entries, rebuilds

  ghost function Sanitized(w: World, m: map<string, Entry>): map<string, Entry> {
    map s | s in m :: SanitizedEntry(w, m[s])
  }

  ghost function SanitizedEntry(w: World, e: Entry): Entry {
    e.(note := Sanitize(w, Redacted(w, e.note)))
  }

  /** With a redactor that settles, how often a note is redacted on the way does not show in the tables. */
  lemma SanitizedRebuildsSame(t: Tables, w: World, view: Metadata -> ConsoleRow, m: map<string, Entry>)
    requires RedactorSettles(w)
    ensures IsRebuild(t, w, view, Sanitized(w, m)) <==> IsRebuild(t, w, view, m)
  {
    var n := Sanitized(w, m);
    forall s | s in m ensures RowsOf(w, view, n[s]) == RowsOf(w, view, m[s]) {
      SanitizeOnce(w, m[s].note);
    }
    hide RowsOf, IsRebuild;
    SameRows(t, w, view, n, m);
  }

  lemma SanitizeOnce(w: World, note: Note)
    requires RedactorSettles(w)
    ensures Sanitize(w, Sanitize(w, Redacted(w, note))) == Sanitize(w, note)
    ensures Sanitize(w, Redacted(w, note)).links == note.links
  {
  }

  // ----------------------------------------------------- scanning the sources

  /** A directory listing: every file once. */
  ghost predicate Lists(names: seq<string>, files: Files) {
    && (forall s :: s in names <==> s in files)
    && (forall i, j | 0 <= i < j < |names| :: names[i] != names[j])
  }

  ghost function Bytes(files: Files, names: seq<string>): nat
    requires forall s | s in names :: s in files
  {
    if names == [] then 0
    else Bytes(files, names[..|names| - 1]) + ByteLen(files[names[|names| - 1]])
  }

  predicate Fits(notes: nat, bytes: nat) {
    notes <= MAX_NOTES && bytes <= MAX_AGGREGATE
  }

  lemma {:induction false} BytesGrow(files: Files, names: seq<string>, i: nat)
    requires (forall s | s in names :: s in files) && i <= |names|
    ensures Bytes(files, names[..i]) <= Bytes(files, names)
    decreases |names|
  {
    if i < |names| {
      BytesGrow(files, names[..|names| - 1], i);
      assert names[..|names| - 1][..i] == names[..i];
    } else {
      assert names[..i] == names;
    }
  }

  lemma BytesNext(files: Files, names: seq<string>, i: nat)
    requires (forall s | s in names :: s in files) && i < |names|
    ensures Bytes(files, names[..i + 1]) == Bytes(files, names[..i]) + ByteLen(files[names[i]]) <= Bytes(files, names)
  {
    assert names[..i + 1][..i] == names[..i];
    BytesGrow(files, names, i + 1);
  }

  lemma NoBytes(files: Files, names: seq<string>)
    requires forall s | s in names :: s in files
    ensures Bytes(files, names[..0]) == 0
  {
  }

  /** What the scan of one directory puts into the list for one file. */
  ghost predicate IsSource(w: World, e: Entry, data: string, slug: string, trust: Trust, now: int) {
    && Parse(w, data, slug, trust, now).Some?
    && e == Entry(Sanitize(w, Redacted(w, Parse(w, data, slug, trust, now).value)), ByteLen(data))
  }

  /** What a scan has met so far: the slugs, and the number and size of their files. */
  datatype Scanned = Scanned(slugs: set<string>, count: nat, bytes: nat)

  /** The part of `scanSources` that handles one file. */
  method ScanFile(w: World, data: string, slug: string, trust: Trust, now: int, met: Scanned) returns (r: Option<Entry>)
    ensures r.Some? <==>
            && ValidSlug(slug) && slug !in met.slugs
            && met.count + 1 <= 10000 && met.bytes + ByteLen(data) <= 67108864
            && Parse(w, data, slug, trust, now).Some?
    ensures r.Some? ==> IsSource(w, r.value, data, slug, trust, now)
  {
    if !ValidSlug(slug) || slug in met.slugs {
      return None;
    }
    if data == "" || ByteLen(data) > MAX_FILE {
      return None;
    }
    if !Fits(met.count + 1, met.bytes + ByteLen(data)) {
      return None;
    }
    var note := ReadSource(w, data, slug, trust, now);
    if note.None? {
      return None;
    }
    return Some(Entry(Sanitize(w, note.value), ByteLen(data)));
  }

  /** The listed files are good and new. */
  ghost predicate Good(w: World, files: Files, names: seq<string>, trust: Trust, now: int, slugs: set<string>)
    requires forall s | s in names :: s in files
  {
    forall i | 0 <= i < |names| ::
      ValidSlug(names[i]) && names[i] !in slugs && Parse(w, files[names[i]], names[i], trust, now).Some?
  }

  /** The entries are those of the listed files. */
  ghost predicate AreSources(w: World, all: seq<Entry>, files: Files, names: seq<string>, trust: Trust, now: int)
    requires forall s | s in names :: s in files
  {
    |all| == |names| && forall i | 0 <= i < |names| :: IsSource(w, all[i], files[names[i]], names[i], trust, now)
  }

  /** The inner loop of `scanSources`: one directory. It accepts exactly when every file is good and all of them fit. */
  method ScanDirectory(w: World, files: Files, names: seq<string>, trust: Trust, now: int, met: Scanned)
    returns (r: Option<seq<Entry>>, total: nat)
    requires Lists(names, files)
    ensures r.Some? <==>
            && Good(w, files, names, trust, now, met.slugs)
            && (names != [] ==> Fits(met.count + |names|, met.bytes + Bytes(files, names)))
    ensures r.Some? ==> total == met.bytes + Bytes(files, names) && AreSources(w, r.value, files, names, trust, now)
  {
    hide Parse, IsSource, ValidSlug, ByteLen, Bytes;
    var sources: seq<Entry> := [];
    total := met.bytes;
    assert Bytes(files, names[..0]) == 0 by { NoBytes(files, names); }
    for i := 0 to |names|
      invariant total == met.bytes + Bytes(files, names[..i])
      invariant Good(w, files, names[..i], trust, now, met.slugs)
      invariant i > 0 ==> Fits(met.count + i, total)
      invariant AreSources(w, sources, files, names[..i], trust, now)
    {
      BytesNext(files, names, i);
      var e := ScanFile(w, files[names[i]], names[i], trust, now, Scanned(met.slugs, met.count + i, total));
      if e.None? {
        return None, 0;
      }
      total := total + ByteLen(files[names[i]]);
      sources := sources + [e.value];
    }
    assert names[..|names|] == names;
    return Some(sources), total;
  }

  /** The listing of both directories. */
  datatype Listing = Listing(curated: seq<string>, working: seq<string>) {
    ghost predicate Of(src: Sources) {
      Lists(curated, src.curated) && Lists(working, src.working)
    }
  }

  ghost predicate SlugsValid(src: Sources) {
    forall s | s in src.Slugs() :: ValidSlug(s)
  }

  /** When the sources can be indexed: every one readable, no slug twice, and within the bounds. */
  ghost predicate Indexable(w: World, src: Sources, names: Listing, now: int)
    requires names.Of(src)
  {
    && SlugsValid(src)
    && Readable(w, src, now)
    && Fits(|names.curated| + |names.working|, Bytes(src.curated, names.curated) + Bytes(src.working, names.working))
  }

  ghost function SlugsOf(all: seq<Entry>): seq<string> {
    seq(|all|, i requires 0 <= i < |all| => all[i].note.metadata.slug)
  }

  /**
   `scanSources` succeeds exactly on indexable sources, and then lists the sanitised entry of every
   source once, in the order of the slugs.
   */
  method ScanSources(w: World, src: Sources, names: Listing, now: int) returns (r: Option<seq<Entry>>)
    requires names.Of(src)
    ensures r.Some? <==> Indexable(w, src, names, now)
    ensures r.Some? ==> Keyed(r.value) == Sanitized(w, Entries(w, src, now)) && StrictlySorted(SlugsOf(r.value))
  {
    hide Parse, IsSource, ValidSlug, Keyed, Sanitized, Entries, StrictlySorted, SlugsOf;
    var first, bytes := ScanDirectory(w, src.curated, names.curated, Curated, now, Scanned({}, 0, 0));
    if first.None? {
      NotIndexable(w, src, names, now);
      return None;
    }
    var met := Scanned(src.curated.Keys, |first.value|, bytes);
    var second, total := ScanDirectory(w, src.working, names.working, Working, now, met);
    IndexableIff(w, src, names, now);
    if second.None? {
      return None;
    }
    KeyedSources(w, src, names, now, first.value, second.value);
    var sorted := SortBySlug(first.value + second.value);
    return Some(sorted);
  }

  lemma IndexableIff(w: World, src: Sources, names: Listing, now: int)
    requires names.Of(src)
    ensures Indexable(w, src, names, now) <==>
            && Good(w, src.curated, names.curated, Curated, now, {})
            && Good(w, src.working, names.working, Working, now, src.curated.Keys)
            && Fits(
                 |names.curated| + |names.working|,
                 Bytes(src.curated, names.curated) + Bytes(src.working, names.working))
  {
    assert Lists(names.curated, src.curated) && Lists(names.working, src.working);
    hide *;
    GoodFiles(w, src.curated, names.curated, Curated, now, {});
    GoodFiles(w, src.working, names.working, Working, now, src.curated.Keys);
    ReadableIff(w, src, now);
    IndexableMeans(w, src, names, now);
  }

  lemma IndexableMeans(w: World, src: Sources, names: Listing, now: int)
    requires names.Of(src)
    ensures Indexable(w, src, names, now) <==>
            && SlugsValid(src)
            && Readable(w, src, now)
            && Fits(
                 |names.curated| + |names.working|,
                 Bytes(src.curated, names.curated) + Bytes(src.working, names.working))
  {
    hide SlugsValid, Readable, Lists, Bytes, Fits;
  }

  /** The files are good and new. */
  ghost predicate AllGood(w: World, files: Files, trust: Trust, now: int, slugs: set<string>) {
    forall s | s in files :: ValidSlug(s) && s !in slugs && Parse(w, files[s], s, trust, now).Some?
  }

  /** A listing is good exactly when every file is. */
  lemma GoodFiles(w: World, files: Files, names: seq<string>, trust: Trust, now: int, slugs: set<string>)
    requires Lists(names, files)
    ensures Good(w, files, names, trust, now, slugs) <==> AllGood(w, files, trust, now, slugs)
  {
    hide Parse, ValidSlug;
    if Good(w, files, names, trust, now, slugs) {
      forall s | s in files
        ensures ValidSlug(s) && s !in slugs && Parse(w, files[s], s, trust, now).Some?
      {
        var i :| 0 <= i < |names| && names[i] == s;
      }
    }
  }

  /** Sources can be read under valid slugs exactly when all files are good, the working ones next to the curated. */
  lemma ReadableIff(w: World, src: Sources, now: int)
    ensures SlugsValid(src) && Readable(w, src, now) <==>
            AllGood(w, src.curated, Curated, now, {}) && AllGood(w, src.working, Working, now, src.curated.Keys)
  {
    hide Parse, ByteLen, ValidSlug;
    if SlugsValid(src) && Readable(w, src, now) {
      forall s | s in src.Slugs() ensures SourceAt(w, src, s, now).Some? { assert s in AllAt(src, now); }
      forall s | s in src.curated ensures s in src.Slugs() && s !in src.working {}
      forall s | s in src.working ensures s in src.Slugs() && s !in src.curated {}
    }
  }

  lemma NotIndexable(w: World, src: Sources, names: Listing, now: int)
    requires names.Of(src)
    requires !Good(w, src.curated, names.curated, Curated, now, {})
          || !Fits(|names.curated|, Bytes(src.curated, names.curated))
    ensures !Indexable(w, src, names, now)
  {
    IndexableIff(w, src, names, now);
    hide Indexable, Good, Bytes;
  }

  lemma KeyedSources(w: World, src: Sources, names: Listing, now: int, a: seq<Entry>, b: seq<Entry>)
    requires names.Of(src) && Indexable(w, src, names, now)
    requires AreSources(w, a, src.curated, names.curated, Curated, now)
    requires AreSources(w, b, src.working, names.working, Working, now)
    ensures Keyed(a + b) == Sanitized(w, Entries(w, src, now))
  {
    hide Parse, ValidSlug, IsSource, AreSources, Entries, Readable, Bytes, Keyed, Sanitized, SanitizedEntry;
    var slugs, all := names.curated + names.working, a + b;
    var m := Entries(w, src, now);
    EntriesKeys(w, src, now);
    ListedFiles(w, src, now, names.curated, Curated, a);
    ListedFiles(w, src, now, names.working, Working, b);
    forall s | s in m ensures s in slugs { assert s in src.Slugs(); }
    hide *;
    SanitizedKeyed(w, all, slugs, m);
  }

  lemma EntriesKeys(w: World, src: Sources, now: int)
    requires Readable(w, src, now)
    ensures Entries(w, src, now).Keys == src.Slugs()
  {
  }

  lemma ListedFiles(w: World, src: Sources, now: int, slugs: seq<string>, trust: Trust, all: seq<Entry>)
    requires Readable(w, src, now) && forall s | s in src.Slugs() :: ValidSlug(s)
    requires forall s | s in slugs :: if trust.Working? then s in src.working else s in src.curated
    requires AreSources(w, all, if trust.Working? then src.working else src.curated, slugs, trust, now)
    ensures |all| == |slugs|
    ensures var m := Entries(w, src, now);
            forall i | 0 <= i < |all| ::
              slugs[i] in m && all[i].note.metadata.slug == slugs[i] && all[i] == SanitizedEntry(w, m[slugs[i]])
  {
    hide IsSource, Entries, Readable, ValidSlug, SanitizedEntry;
    forall i | 0 <= i < |all|
      ensures slugs[i] in Entries(w, src, now) && all[i].note.metadata.slug == slugs[i]
      ensures all[i] == SanitizedEntry(w, Entries(w, src, now)[slugs[i]])
    {
      assert slugs[i] in src.Slugs();
      ListedSource(w, src, now, slugs[i], trust, all[i]);
    }
  }

  lemma SanitizedKeyed(w: World, all: seq<Entry>, slugs: seq<string>, m: map<string, Entry>)
    requires |all| == |slugs| && forall s | s in m :: s in slugs
    requires forall i | 0 <= i < |all| ::
               slugs[i] in m && all[i].note.metadata.slug == slugs[i] && all[i] == SanitizedEntry(w, m[slugs[i]])
    ensures Keyed(all) == Sanitized(w, m)
  {
    hide SanitizedEntry, Keyed;
    KeyedIs(all, slugs, Sanitized(w, m));
  }

  lemma ListedSource(w: World, src: Sources, now: int, slug: string, trust: Trust, e: Entry)
    requires Readable(w, src, now) && ValidSlug(slug)
    requires if trust.Working? then slug in src.working else slug in src.curated
    requires IsSource(w, e, if trust.Working? then src.working[slug] else src.curated[slug], slug, trust, now)
    ensures slug in Entries(w, src, now) && e.note.metadata.slug == slug
    ensures e == SanitizedEntry(w, Entries(w, src, now)[slug])
  {
    SlugIsTrimmed(slug);
    ParsedSlug(w, if trust.Working? then src.working[slug] else src.curated[slug], slug, trust, now);
    hide Parse, ByteLen, ValidSlug;
  }

  lemma SlugIsTrimmed(slug: string)
    requires ValidSlug(slug)
    ensures slug != "" && TrimSpace(slug) == slug
  {
    hide TrimSpace;
    assert SlugChar(slug[0]) && SlugChar(slug[|slug| - 1]);
    hide ValidSlug;
  }

  /** The sort at the end of `scanSources`: the same entries in the order of their slugs. */
  method SortBySlug(all: seq<Entry>) returns (sorted: seq<Entry>)
    ensures Keyed(sorted) == Keyed(all) && StrictlySorted(SlugsOf(sorted))
  {
    var keyed := Keyed(all);
    KeyedSlugs(all);
    hide Keyed, StrictlySorted;
    var slugs := Sorted(keyed.Keys);
    sorted := [];
    for i := 0 to |slugs|
      invariant |sorted| == i
      invariant forall j | 0 <= j < i :: slugs[j] in keyed && sorted[j] == keyed[slugs[j]]
    {
      assert slugs[i] in Elements(slugs);
      sorted := sorted + [keyed[slugs[i]]];
    }
    assert SlugsOf(sorted) == slugs;
    forall s | s in keyed ensures s in slugs { assert s in Elements(slugs); }
    KeyedIs(sorted, slugs, keyed);
  }

  lemma {:induction false} KeyedSlugs(all: seq<Entry>)
    ensures forall s | s in Keyed(all) :: Keyed(all)[s].note.metadata.slug == s
  {
    if all != [] { KeyedSlugs(all[..|all| - 1]); }
  }

  /** A list of entries with distinct slugs, seen as a map. */
  lemma {:induction false} KeyedIs(all: seq<Entry>, slugs: seq<string>, goal: map<string, Entry>)
    requires |all| == |slugs| && forall s | s in goal :: s in slugs
    requires forall i | 0 <= i < |all| ::
               all[i].note.metadata.slug == slugs[i] && slugs[i] in goal && goal[slugs[i]] == all[i]
    ensures Keyed(all) == goal
  {
    KeyedPrefix(all, slugs, goal, |all|);
    assert all[..|all|] == all;
    SameMap(Keyed(all), goal);
  }

  lemma {:induction false} KeyedPrefix(all: seq<Entry>, slugs: seq<string>, goal: map<string, Entry>, n: nat)
    requires n <= |all| == |slugs|
    requires forall i | 0 <= i < |all| ::
               all[i].note.metadata.slug == slugs[i] && slugs[i] in goal && goal[slugs[i]] == all[i]
    ensures Keyed(all[..n]).Keys == set i | 0 <= i < n :: slugs[i]
    ensures forall i | 0 <= i < n :: Keyed(all[..n])[slugs[i]] == all[i]
  {
    if n > 0 {
      KeyedPrefix(all, slugs, goal, n - 1);
      assert all[..n][..n - 1] == all[..n - 1];
    }
  }
}
