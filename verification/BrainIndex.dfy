/**
 The disposable SQLite cache of internal/brain/index.go: four tables that must always
 equal what a rebuild from the note sources would produce.
 */
module BrainIndex {
  import opened Text
  import opened Notes

  datatype NoteRow = NoteRow(
    trust: Trust, title: string, kind: string, author: string, created: string, updated: string,
    provenance: string, reviewBy: string, expired: bool, body: string, sourceBytes: nat)

  datatype ConsoleRow = ConsoleRow(title: string, consoleLabel: string, consoleSummary: string)

  datatype FtsRow = FtsRow(title: string, body: string)

  /** A note and the size of its source file. */
  datatype Entry = Entry(note: Note, sourceBytes: nat)

  /**
   The tables `notes`, `console_metadata`, `links` and `notes_fts`. The full-text table has no
   key, so it holds a list of rows per slug.
   */
  datatype Tables = Tables(
    notes: map<string, NoteRow>,
    console: map<string, ConsoleRow>,
    links: set<(string, string)>,
    fts: map<string, seq<FtsRow>>)

  /** A list of sources by slug; a later one replaces an earlier one of the same slug. */
  function Keyed(sources: seq<Entry>): map<string, Entry> {
    if sources == [] then map[]
    else var last := sources[|sources| - 1]; Keyed(sources[..|sources| - 1])[last.note.metadata.slug := last]
  }

  const EMPTY := Tables(map[], map[], {}, map[])

  /** `sanitizeIndexedNote`. */
  function Sanitize(w: World, note: Note): Note {
    note.(
      metadata := note.metadata.(
        title := w.redact(note.metadata.title),
        consoleLabel := w.redact(note.metadata.consoleLabel),
        consoleSummary := w.redact(note.metadata.consoleSummary),
        provenance := w.redact(note.metadata.provenance)),
      body := w.redact(note.body))
  }

  /** Redacting a text that is already redacted changes nothing. */
  ghost predicate RedactorSettles(w: World) {
    forall s :: w.redact(w.redact(s)) == w.redact(s)
  }

  // ------------------------------------------------ rows derived from a note

  function NoteRowOf(note: Note, sourceBytes: nat): NoteRow {
    var m := note.metadata;
    NoteRow(
      note.trust, m.title, m.kind, m.author, m.created, m.updated, m.provenance, m.reviewBy,
      note.expired, note.body, sourceBytes)
  }

  function FtsRowOf(note: Note): FtsRow {
    FtsRow(note.metadata.title, note.body)
  }

  /** Everything the cache keeps about one entry. `console` is `safeConsoleMetadata`. */
  datatype Rows = Rows(note: NoteRow, console: ConsoleRow, targets: seq<string>, fts: FtsRow)

  ghost function RowsOf(w: World, console: Metadata -> ConsoleRow, e: Entry): Rows {
    var note := Sanitize(w, e.note);
    Rows(NoteRowOf(note, e.sourceBytes), console(note.metadata), e.note.links, FtsRowOf(note))
  }

  /** What the tables keep of a note: every free text redacted, the rest as it is. */
  lemma RowsKeep(w: World, console: Metadata -> ConsoleRow, e: Entry)
    ensures var rows, m := RowsOf(w, console, e), e.note.metadata;
            var shown := m.(title := w.redact(m.title), consoleLabel := w.redact(m.consoleLabel),
                            consoleSummary := w.redact(m.consoleSummary), provenance := w.redact(m.provenance));
            && rows.note.title == rows.fts.title == w.redact(m.title)
            && rows.note.body == rows.fts.body == w.redact(e.note.body)
            && rows.note.provenance == w.redact(m.provenance) && rows.note.trust == e.note.trust
            && rows.note.kind == m.kind && rows.note.author == m.author && rows.note.reviewBy == m.reviewBy
            && rows.note.created == m.created && rows.note.updated == m.updated
            && rows.note.expired == e.note.expired && rows.note.sourceBytes == e.sourceBytes
            && rows.console == console(shown) && rows.targets == e.note.links
  {
  }

  /** Inserting into a table without a key: rows of the same slug pile up. */
  function FtsInsert(fts: map<string, seq<FtsRow>>, slug: string, row: FtsRow): (r: map<string, seq<FtsRow>>)
    ensures slug !in fts ==> r == fts[slug := [row]]
  {
    if slug in fts then fts[slug := fts[slug] + [row]] else fts[slug := [row]]
  }

  function LinksFrom(slug: string, targets: seq<string>): set<(string, string)> {
    set x | x in targets :: (slug, x)
  }

  function LinksOfOthers(links: set<(string, string)>, slug: string): set<(string, string)> {
    set l | l in links && l.0 != slug
  }

  /** The tables hold exactly the given rows: one note, one console and one full-text row per slug, and every link. */
  ghost predicate Hold(t: Tables, m: map<string, Rows>) {
    && t.notes.Keys == m.Keys && t.console.Keys == m.Keys && t.fts.Keys == m.Keys
    && (forall s | s in m :: t.notes[s] == m[s].note)
    && (forall s | s in m :: t.console[s] == m[s].console)
    && (forall s | s in m :: t.fts[s] == [m[s].fts])
    && (forall l | l in t.links :: l.0 in m && l.1 in m[l.0].targets)
    && (forall s, x | s in m && x in m[s].targets :: (s, x) in t.links)
  }

  /** There is only one set of tables that holds given rows. */
  lemma HoldUnique(a: Tables, b: Tables, m: map<string, Rows>)
    requires Hold(a, m) && Hold(b, m)
    ensures a == b
  {
    assert a.notes == b.notes;
    assert a.console == b.console;
    assert a.fts == b.fts;
    forall l ensures l in a.links <==> l in b.links { assert l == (l.0, l.1); }
    assert a.links == b.links;
  }

  /** Tables in which everything about `slug` has been replaced by the given rows. */
  ghost function Replaced(t: Tables, slug: string, r: Rows): Tables {
    Tables(
      t.notes[slug := r.note],
      t.console[slug := r.console],
      LinksOfOthers(t.links, slug) + LinksFrom(slug, r.targets),
      t.fts[slug := [r.fts]])
  }

  /** Tables without anything about `slug`; links pointing at it stay. */
  ghost function Without(t: Tables, slug: string): Tables {
    Tables(t.notes - {slug}, t.console - {slug}, LinksOfOthers(t.links, slug), t.fts - {slug})
  }

  /** Updating tables by one note gives the tables of the updated notes. */
  lemma HoldReplaced(t: Tables, m: map<string, Rows>, slug: string, r: Rows)
    requires Hold(t, m)
    ensures Hold(Replaced(t, slug, r), m[slug := r])
  {
  }

  /** Deleting a note from the tables, with its cascades, gives the tables of the rest. */
  lemma HoldWithout(t: Tables, m: map<string, Rows>, slug: string)
    requires Hold(t, m)
    ensures Hold(Without(t, slug), m - {slug})
  {
  }

  /** The rows of all notes: what a full rebuild puts into the tables. */
  ghost function RowMap(w: World, console: Metadata -> ConsoleRow, m: map<string, Entry>): (r: map<string, Rows>)
    ensures r.Keys == m.Keys && forall s | s in m :: r[s] == RowsOf(w, console, m[s])
  {
    map s | s in m :: RowsOf(w, console, m[s])
  }

  /** The tables are what a full rebuild from the given notes produces. */
  ghost predicate IsRebuild(t: Tables, w: World, console: Metadata -> ConsoleRow, m: map<string, Entry>) {
    Hold(t, RowMap(w, console, m))
  }

  /** A rebuild has one result. */
  lemma RebuildUnique(a: Tables, b: Tables, w: World, console: Metadata -> ConsoleRow, m: map<string, Entry>)
    requires IsRebuild(a, w, console, m) && IsRebuild(b, w, console, m)
    ensures a == b
  {
    HoldUnique(a, b, RowMap(w, console, m));
  }

  lemma SameMap<K, V>(a: map<K, V>, b: map<K, V>)
    requires a.Keys == b.Keys && forall k | k in a :: a[k] == b[k]
    ensures a == b
  {
  }

  lemma RowMapUpdated(w: World, console: Metadata -> ConsoleRow, m: map<string, Entry>, slug: string, e: Entry)
    ensures RowMap(w, console, m)[slug := RowsOf(w, console, e)] == RowMap(w, console, m[slug := e])
  {
    hide *;
    SameMap(RowMap(w, console, m)[slug := RowsOf(w, console, e)], RowMap(w, console, m[slug := e]));
  }

  lemma IncrementalIsRebuild(
      t: Tables, w: World, console: Metadata -> ConsoleRow, m: map<string, Entry>, slug: string, e: Entry)
    requires IsRebuild(t, w, console, m)
    ensures IsRebuild(Replaced(t, slug, RowsOf(w, console, e)), w, console, m[slug := e])
  {
    hide RowsOf, RowMap, Replaced, Hold;
    HoldReplaced(t, RowMap(w, console, m), slug, RowsOf(w, console, e));
    RowMapUpdated(w, console, m, slug, e);
  }

  lemma DeleteIsRebuild(t: Tables, w: World, console: Metadata -> ConsoleRow, m: map<string, Entry>, slug: string)
    requires IsRebuild(t, w, console, m)
    ensures IsRebuild(Without(t, slug), w, console, m - {slug})
  {
    hide RowsOf, RowMap, Without, Hold;
    HoldWithout(t, RowMap(w, console, m), slug);
    SameMap(RowMap(w, console, m) - {slug}, RowMap(w, console, m - {slug}));
  }

  /** What the tables hold about `slug` is exactly the given rows. */
  ghost predicate RowsAre(t: Tables, slug: string, r: Rows) {
    && slug in t.notes && t.notes[slug] == r.note
    && slug in t.console && t.console[slug] == r.console
    && slug in t.fts && t.fts[slug] == [r.fts]
    && LinksAt(t.links, slug) == LinksFrom(slug, r.targets)
  }

  /** The tables hold nothing about `slug`, except links of other notes to it. */
  ghost predicate NoRows(t: Tables, slug: string) {
    slug !in t.notes && slug !in t.console && slug !in t.fts && LinksAt(t.links, slug) == {}
  }

  function LinksAt(links: set<(string, string)>, slug: string): set<(string, string)> {
    set l | l in links && l.0 == slug
  }

  lemma SplitLinks(links: set<(string, string)>, slug: string, own: set<(string, string)>)
    requires forall l | l in own :: l.0 == slug
    ensures LinksOfOthers(links, slug) + own == links <==> LinksAt(links, slug) == own
  {
    if LinksOfOthers(links, slug) + own == links {
      forall l ensures l in LinksAt(links, slug) <==> l in own {
        assert l in links <==> l in LinksOfOthers(links, slug) + own;
      }
    }
  }

  /** Putting rows in changes nothing exactly when they are there already. */
  lemma ReplacedIsSame(t: Tables, slug: string, r: Rows)
    ensures Replaced(t, slug, r) == t <==> RowsAre(t, slug, r)
  {
    SplitLinks(t.links, slug, LinksFrom(slug, r.targets));
    hide LinksOfOthers, LinksAt, LinksFrom;
    SameUpdate(t.notes, slug, r.note);
    SameUpdate(t.console, slug, r.console);
    SameUpdate(t.fts, slug, [r.fts]);
  }

  lemma SameUpdate<K, V>(m: map<K, V>, k: K, v: V)
    ensures m[k := v] == m <==> k in m && m[k] == v
  {
    if m[k := v] == m { assert k in m[k := v]; }
  }

  lemma WithoutIsSame(t: Tables, slug: string)
    ensures Without(t, slug) == t <==> NoRows(t, slug)
  {
    SplitLinks(t.links, slug, {});
    assert LinksOfOthers(t.links, slug) + {} == LinksOfOthers(t.links, slug);
    hide LinksOfOthers, LinksAt;
    SameRemoval(t.notes, slug);
    SameRemoval(t.console, slug);
    SameRemoval(t.fts, slug);
  }

  lemma SameRemoval<K, V>(m: map<K, V>, k: K)
    ensures m - {k} == m <==> k !in m
  {
    if m - {k} == m { assert k !in m - {k}; }
  }

  /** Different rows make different tables. */
  lemma SameReplacement(t: Tables, slug: string, p: Rows, q: Rows)
    requires Replaced(t, slug, p) == Replaced(t, slug, q)
    ensures p.note == q.note && p.console == q.console && p.fts == q.fts
  {
    assert t.notes[slug := p.note][slug] == t.notes[slug := q.note][slug];
    assert t.console[slug := p.console][slug] == t.console[slug := q.console][slug];
    assert t.fts[slug := [p.fts]][slug] == t.fts[slug := [q.fts]][slug];
  }

  /** Rows put in and replaced again leave no trace. */
  lemma ReplacedTwice(t: Tables, slug: string, e: Rows, r: Rows)
    ensures Replaced(Replaced(t, slug, e), slug, r) == Replaced(t, slug, r)
    ensures Without(Replaced(t, slug, e), slug) == Without(t, slug)
  {
    OthersStay(t.links, slug, LinksFrom(slug, e.targets));
    hide LinksOfOthers, LinksFrom;
    UpdatedAgain(t.notes, slug, e.note, r.note);
    UpdatedAgain(t.console, slug, e.console, r.console);
    UpdatedAgain(t.fts, slug, [e.fts], [r.fts]);
  }

  lemma UpdatedAgain<K, V>(m: map<K, V>, k: K, u: V, v: V)
    ensures m[k := u][k := v] == m[k := v] && m[k := u] - {k} == m - {k}
  {
  }

  lemma OthersStay(links: set<(string, string)>, slug: string, own: set<(string, string)>)
    requires forall l | l in own :: l.0 == slug
    ensures LinksOfOthers(LinksOfOthers(links, slug) + own, slug) == LinksOfOthers(links, slug)
  {
  }

  /**
   Compensating a write restores the tables exactly when what they held about the slug was what
   is put back: the prior note's rows, or nothing.
   */
  lemma UndoRestoresIff(t: Tables, slug: string, e: Rows, prior: Option<Rows>)
    ensures Undone(Replaced(t, slug, e), slug, prior) == t <==> CurrentRows(t, slug, prior)
  {
    hide Replaced, Without, RowsAre, NoRows;
    if prior.Some? {
      ReplacedTwice(t, slug, e, prior.value);
      ReplacedIsSame(t, slug, prior.value);
    } else {
      ReplacedTwice(t, slug, e, e);
      WithoutIsSame(t, slug);
    }
  }

  /** What the tables hold about a slug is what is put back. */
  ghost predicate CurrentRows(t: Tables, slug: string, prior: Option<Rows>) {
    if prior.Some? then RowsAre(t, slug, prior.value) else NoRows(t, slug)
  }

  /** The compensation itself. */
  ghost function Undone(t: Tables, slug: string, prior: Option<Rows>): Tables {
    if prior.Some? then Replaced(t, slug, prior.value) else Without(t, slug)
  }

  /** The tables see of an entry only its rows. */
  lemma SameRows(t: Tables, w: World, console: Metadata -> ConsoleRow, m: map<string, Entry>, n: map<string, Entry>)
    requires m.Keys == n.Keys
    requires forall s | s in m :: RowsOf(w, console, m[s]) == RowsOf(w, console, n[s])
    ensures IsRebuild(t, w, console, m) <==> IsRebuild(t, w, console, n)
  {
    hide RowsOf, Hold;
    assert RowMap(w, console, m) == RowMap(w, console, n);
  }

  /** Entries that differ in their expiry alone give the same tables but for the column `expired`. */
  lemma SameRowsUpToExpiry(
      a: Tables, b: Tables, w: World, console: Metadata -> ConsoleRow, m: map<string, Entry>, n: map<string, Entry>)
    requires IsRebuild(a, w, console, m) && IsRebuild(b, w, console, n) && m.Keys == n.Keys
    requires forall s | s in m :: n[s] == m[s].(note := m[s].note.(expired := n[s].note.expired))
    ensures a.console == b.console && a.links == b.links && a.fts == b.fts && a.notes.Keys == b.notes.Keys == m.Keys
    ensures forall s | s in m ::
              a.notes[s] == b.notes[s].(expired := m[s].note.expired) && b.notes[s].expired == n[s].note.expired
  {
    RowMapsUpToExpiry(w, console, m, n);
    NotesAre(a, w, console, m);
    NotesAre(b, w, console, n);
    hide RowsOf, RowMap, Hold;
    HoldUpToNote(a, b, RowMap(w, console, m), RowMap(w, console, n));
    forall s | s in m
      ensures a.notes[s] == b.notes[s].(expired := m[s].note.expired) && b.notes[s].expired == n[s].note.expired
    {
      RowUpToExpiry(w, console, m[s], n[s]);
    }
  }

  lemma RowMapsUpToExpiry(w: World, console: Metadata -> ConsoleRow, m: map<string, Entry>, n: map<string, Entry>)
    requires m.Keys == n.Keys
    requires forall s | s in m :: n[s] == m[s].(note := m[s].note.(expired := n[s].note.expired))
    ensures var p, q := RowMap(w, console, m), RowMap(w, console, n);
            forall s | s in p :: p[s] == q[s].(note := p[s].note)
  {
    hide RowsOf, RowMap;
    var p, q := RowMap(w, console, m), RowMap(w, console, n);
    forall s | s in p ensures p[s] == q[s].(note := p[s].note) { RowUpToExpiry(w, console, m[s], n[s]); }
  }

  /** Rows that differ in the note row alone give the same tables but for `notes`. */
  lemma HoldUpToNote(a: Tables, b: Tables, p: map<string, Rows>, q: map<string, Rows>)
    requires Hold(a, p) && Hold(b, q) && p.Keys == q.Keys
    requires forall s | s in p :: p[s] == q[s].(note := p[s].note)
    ensures a.console == b.console && a.links == b.links && a.fts == b.fts
  {
    assert a.console == b.console;
    assert a.fts == b.fts;
    forall l ensures l in a.links <==> l in b.links { assert l == (l.0, l.1); }
  }

  lemma NotesAre(t: Tables, w: World, console: Metadata -> ConsoleRow, m: map<string, Entry>)
    requires IsRebuild(t, w, console, m)
    ensures t.notes.Keys == m.Keys && forall s | s in m :: t.notes[s] == RowsOf(w, console, m[s]).note
  {
    hide RowsOf, RowMap;
  }

  lemma RowUpToExpiry(w: World, console: Metadata -> ConsoleRow, e: Entry, f: Entry)
    requires f == e.(note := e.note.(expired := f.note.expired))
    ensures RowsOf(w, console, e)
         == RowsOf(w, console, f).(note := RowsOf(w, console, f).note.(expired := e.note.expired))
    ensures RowsOf(w, console, f).note.expired == f.note.expired
  {
  }

  // --------------------------------------------------------------- the cache

  class Index {
    const w: World
    const view: Metadata -> ConsoleRow
    var notes: map<string, NoteRow>
    var console: map<string, ConsoleRow>
    var links: set<(string, string)>
    var fts: map<string, seq<FtsRow>>

    constructor (w: World, view: Metadata -> ConsoleRow)
      ensures this.w == w && this.view == view && Contents() == EMPTY
    {
      this.w, this.view := w, view;
      notes, console, links, fts := map[], map[], {}, map[];
    }

    ghost function Contents(): Tables
      reads this
    {
      Tables(notes, console, links, fts)
    }

    /** Every row of the other tables belongs to a note. */
    ghost predicate ForeignKeys()
      reads this
    {
      console.Keys <= notes.Keys && (forall l | l in links :: l.0 in notes) && fts.Keys <= notes.Keys
    }

    /** `upsertNoteTx`, statement by statement. */
    method UpsertNoteTx(note: Note, sourceBytes: nat)
      requires ForeignKeys()
      modifies this
      ensures ForeignKeys()
      ensures Contents() == Replaced(old(Contents()), note.metadata.slug, RowsOf(w, view, Entry(note, sourceBytes)))
    {
      var n := Sanitize(w, note);
      var slug := n.metadata.slug;
      assert slug == note.metadata.slug && n.links == note.links;
      assert RowsOf(w, view, Entry(note, sourceBytes))
          == Rows(NoteRowOf(n, sourceBytes), view(n.metadata), n.links, FtsRowOf(n));
      hide Sanitize, NoteRowOf, FtsRowOf, RowsOf;
      notes := notes[slug := NoteRowOf(n, sourceBytes)];
      console := console[slug := view(n.metadata)];
      fts := fts - {slug};
      fts := FtsInsert(fts, slug, FtsRowOf(n));
      assert fts == old(fts)[slug := [FtsRowOf(n)]];
      links := LinksOfOthers(links, slug);
      ghost var kept := links;
      for i := 0 to |n.links|
        invariant notes == old(notes)[slug := NoteRowOf(n, sourceBytes)]
        invariant console == old(console)[slug := view(n.metadata)]
        invariant fts == old(fts)[slug := [FtsRowOf(n)]]
        invariant links == kept + LinksFrom(slug, n.links[..i])
      {
        assert n.links[..i + 1] == n.links[..i] + [n.links[i]];
        links := links + {(slug, n.links[i])};
      }
      assert n.links[..|n.links|] == n.links;
    }

    /** `upsert`: one transaction, so a failure leaves the tables alone. */
    method Upsert(note: Note, sourceBytes: nat, ok: bool) returns (done: bool)
      requires ForeignKeys()
      modifies this
      ensures ForeignKeys()
      ensures done == ok
      ensures Contents() ==
              if done then Replaced(old(Contents()), note.metadata.slug, RowsOf(w, view, Entry(note, sourceBytes)))
              else old(Contents())
    {
      if !ok {
        return false;
      }
      UpsertNoteTx(note, sourceBytes);
      return true;
    }

    /** `delete`: the deletion from `notes` cascades to its console row and to the links it is the source of. */
    method Delete(slug: string, ok: bool) returns (done: bool)
      requires ForeignKeys()
      modifies this
      ensures ForeignKeys()
      ensures done == ok
      ensures Contents() == if done then Without(old(Contents()), slug) else old(Contents())
    {
      if !ok {
        return false;
      }
      fts := fts - {slug};
      notes := notes - {slug};
      console := console - {slug};
      links := LinksOfOthers(links, slug);
      return true;
    }

    /** `replaceAll`: whatever the cache held, it now holds exactly what the sources give. */
    method ReplaceAll(sources: seq<Entry>, ok: bool) returns (done: bool)
      requires ForeignKeys()
      modifies this
      ensures ForeignKeys()
      ensures done == ok
      ensures if done then IsRebuild(Contents(), w, view, Keyed(sources)) else Contents() == old(Contents())
    {
      if !ok {
        return false;
      }
      Clear();
      hide Hold, ForeignKeys, Contents;
      for i := 0 to |sources|
        invariant ForeignKeys()
        invariant IsRebuild(Contents(), w, view, Keyed(sources[..i]))
      {
        assert sources[..i + 1] == sources[..i] + [sources[i]];
        IncrementalIsRebuild(Contents(), w, view, Keyed(sources[..i]), sources[i].note.metadata.slug, sources[i]);
        UpsertNoteTx(sources[i].note, sources[i].sourceBytes);
      }
      assert sources[..|sources|] == sources;
      return true;
    }

    /** The four `DELETE FROM` statements of `replaceAll`. */
    method Clear()
      modifies this
      ensures ForeignKeys() && IsRebuild(Contents(), w, view, map[])
    {
      links, fts, console, notes := {}, map[], map[], map[];
    }
  }
}
