/**
 The Brain write path (internal/brain/write.go) over its three stores: the Markdown
 sources, the derived index and the Git branch.
 */
module BrainStore {
  import opened Text
  import opened Links
  import opened Notes
  import opened BrainIndex
  import opened BrainGit
  import opened BrainSources

  // -------------------------------------------- what keeps the cache current

  /** The cache does not see whether the line ends of a body were normalised. */
  predicate Plain(w: World, body: string) {
    w.redact(Unix(body)) == w.redact(body)
  }

  lemma WithoutCrlfIsPlain(w: World, body: string)
    requires !Contains(body, "\r\n")
    ensures Plain(w, body)
  {
    UnixIdentity(body);
  }

  /** What the tables keep about an accepted note is what its own rendering gives, exactly when its body is plain. */
  lemma RenderedRows(w: World, view: Metadata -> ConsoleRow, note: Note, now: int)
    requires CodecInverts(w) && Accepted(w, note, now)
    ensures var data := Render(w, note);
            && FileEntry(w, data, note.metadata.slug, Working, now)
                 == Some(Entry(note.(body := Unix(note.body)), ByteLen(data)))
            && (RowsOf(w, view, Entry(note.(body := Unix(note.body)), ByteLen(data)))
                == RowsOf(w, view, Entry(note, ByteLen(data)))
                <==> Plain(w, note.body))
            && RowsOf(w, view, Entry(note.(body := Unix(note.body)), ByteLen(data))).targets == note.links
            && RowsOf(w, view, Entry(note, ByteLen(data))).targets == note.links
  {
    ParseOfRender(w, note, now, now);
    var e, f := Entry(note, ByteLen(Render(w, note))), Entry(note.(body := Unix(note.body)), ByteLen(Render(w, note)));
    assert RowsOf(w, view, e).note.body == w.redact(note.body);
    assert RowsOf(w, view, f).note.body == w.redact(Unix(note.body));
    hide Parse, Render, ByteLen, Unix, LinksOf, WellFormed, CodecInverts;
  }

  /**
   Writing an accepted note and updating its rows keeps the tables current, at whatever clock
   readings the other notes were read, exactly when the note's body is plain.
   */
  lemma CurrentAfterWrite(
      t: Tables, w: World, view: Metadata -> ConsoleRow, src: Sources, since: map<string, int>, note: Note, now: int)
    requires CodecInverts(w) && Accepted(w, note, now) && note.metadata.slug !in src.curated
    requires ReadableSince(w, src, since)
    ensures var slug, data := note.metadata.slug, Render(w, note);
            var after, stamps := src.With(slug, data), since[slug := now];
            && ReadableSince(w, after, stamps)
            && (IsRebuild(t, w, view, EntriesSince(w, src, since)) ==>
                  (IsRebuild(
                     Replaced(t, slug, RowsOf(w, view, Entry(note, ByteLen(data)))), w, view,
                     EntriesSince(w, after, stamps))
                   <==> Plain(w, note.body)))
  {
    hide *;
    var slug, data := note.metadata.slug, Render(w, note);
    RenderedRows(w, view, note, now);
    EntriesAfterWrite(w, src, since, slug, data, now);
    if IsRebuild(t, w, view, EntriesSince(w, src, since)) {
      var m, f := EntriesSince(w, src, since), Entry(note.(body := Unix(note.body)), ByteLen(data));
      ReplacedIsRebuildIff(t, w, view, m, slug, RowsOf(w, view, Entry(note, ByteLen(data))), f);
    }
  }

  /** In rebuilt tables the rows of one note may be replaced exactly by those its entry gives. */
  lemma ReplacedIsRebuildIff(
      t: Tables, w: World, view: Metadata -> ConsoleRow, m: map<string, Entry>, slug: string, r: Rows, e: Entry)
    requires IsRebuild(t, w, view, m) && RowsOf(w, view, e).targets == r.targets
    ensures IsRebuild(Replaced(t, slug, r), w, view, m[slug := e]) <==> RowsOf(w, view, e) == r
  {
    IncrementalIsRebuild(t, w, view, m, slug, e);
    if IsRebuild(Replaced(t, slug, r), w, view, m[slug := e]) {
      RebuildUnique(Replaced(t, slug, r), Replaced(t, slug, RowsOf(w, view, e)), w, view, m[slug := e]);
      hide RowsOf, IsRebuild;
      SameReplacement(t, slug, r, RowsOf(w, view, e));
    }
  }

  // ------------------------------------------------------- the write path

  /** A commit on top of the head adds one source to those the tree holds. */
  lemma HeadAfterWrite(base: Option<Commit>, working: Files, written: set<string>, slug: string, data: string)
    requires ValidSlug(slug) && OnePathEach(base) && TreeHolds(base, working, written)
    ensures var c := Some(Commit(TreeOf(base)[NotePath(slug) := data], base));
            Extends(c, base) && OnePathEach(c) && TreeHolds(c, working[slug := data], written + {slug})
  {
    NotePathAllowed(slug);
    NextKeepsHistory(base, NotePath(slug), data);
    hide AllowedPath, ValidSlug, NotePath, OnePathEach, Extends;
    forall s | s in written && NotePath(s) == NotePath(slug) ensures s == slug { NotePathInjective(s, slug); }
  }

  /** The tree of a commit holds the sources of the given slugs. */
  ghost predicate TreeHolds(c: Option<Commit>, working: Files, slugs: set<string>) {
    forall s | s in slugs :: s in working && NotePath(s) in TreeOf(c) && TreeOf(c)[NotePath(s)] == working[s]
  }

  lemma BuiltBody(w: World, draft: Draft, existing: Option<Note>, now: int)
    requires Build(w, draft, existing, now).Some?
    ensures Build(w, draft, existing, now).value.body == TrimSpace(draft.body)
  {
    hide LinksOf, WellFormed, Render, ByteLen, TrimSpace;
  }

  /** Which steps of one write succeed. */
  datatype Faults = Faults(
    cancelled: bool,
    metadata: bool,
    lookup: bool,
    read: bool,
    write: bool,
    upsert: bool,
    git: Plumbing,
    restore: bool,
    undo: bool)

  /** How a write ends: `Failed` reports a completed rollback, `RollbackFailed` an incomplete one. */
  datatype Outcome = Rejected | Written(note: Note) | Failed | RollbackFailed

  /** One request of a run: `seen` and `now` are the two clock readings of the write. */
  datatype Request = Request(draft: Draft, seen: int, now: int, faults: Faults) {
    /** The head can be read, or there is none, and the branch does not move unnoticed. */
    predicate SeesHead(branch: Option<Commit>) {
      (faults.git.revParse || branch.None?) && !faults.git.LosesCommit()
    }
  }

  /** The note a draft asks for, if it asks for one. */
  ghost function Proposal(w: World, src: Sources, draft: Draft, seen: int, now: int): Option<Note> {
    if !ValidSlug(draft.slug) || draft.slug in src.curated then None
    else if draft.slug !in src.working then Build(w, draft, None, now)
    else if Parse(w, src.working[draft.slug], draft.slug, Working, seen).None? then None
    else Build(w, draft, Parse(w, src.working[draft.slug], draft.slug, Working, seen), now)
  }

  lemma ProposedBody(w: World, src: Sources, draft: Draft, seen: int, now: int)
    requires Proposal(w, src, draft, seen, now).Some?
    ensures Proposal(w, src, draft, seen, now).value.body == TrimSpace(draft.body)
  {
    hide Build, Parse, ValidSlug, TrimSpace;
    if draft.slug !in src.working { BuiltBody(w, draft, None, now); }
    else { BuiltBody(w, draft, Parse(w, src.working[draft.slug], draft.slug, Working, seen), now); }
  }

  /**
   What a draft asks for: a note of a valid slug that no curated note has, and, where there is a
   working note, one that can be read and has the draft's author; its creation and console texts
   stay.
   */
  lemma ProposalMeans(w: World, src: Sources, draft: Draft, seen: int, now: int)
    ensures var prior := if draft.slug in src.working then Parse(w, src.working[draft.slug], draft.slug, Working, seen)
                         else None;
            && (Proposal(w, src, draft, seen, now).Some? <==>
                && ValidSlug(draft.slug) && draft.slug !in src.curated
                && (draft.slug in src.working ==> prior.Some?) && Build(w, draft, prior, now).Some?)
            && (Proposal(w, src, draft, seen, now).Some? ==>
                  && Proposal(w, src, draft, seen, now) == Build(w, draft, prior, now)
                  && draft.author != "owner"
                  && Keeps(prior, draft, Proposal(w, src, draft, seen, now).value))
  {
    hide Build, Parse, ValidSlug, TrimSpace, LinksOf;
    if Proposal(w, src, draft, seen, now).Some? {
      var prior := if draft.slug in src.working then Parse(w, src.working[draft.slug], draft.slug, Working, seen)
                   else None;
      BuiltNote(w, draft, prior, now);
    }
  }

  /** The note is the draft's, and the prior note's author, creation and console texts have not changed. */
  predicate Keeps(prior: Option<Note>, draft: Draft, note: Note) {
    && note.metadata.title == TrimSpace(draft.title) && note.metadata.kind == draft.kind
    && note.metadata.author == TrimSpace(draft.author) && note.body == TrimSpace(draft.body)
    && note.metadata.provenance == TrimSpace(draft.provenance)
    && note.metadata.reviewBy == TrimSpace(draft.reviewBy)
    && (prior.Some? ==>
          && prior.value.metadata.author == draft.author
          && note.metadata.created == prior.value.metadata.created
          && note.metadata.consoleLabel == prior.value.metadata.consoleLabel
          && note.metadata.consoleSummary == prior.value.metadata.consoleSummary)
  }

  lemma ProposalReads(w: World, src: Sources, draft: Draft, seen: int, now: int)
    requires Proposal(w, src, draft, seen, now).Some? && draft.slug in src.working
    ensures FileEntry(w, src.working[draft.slug], draft.slug, Working, seen).Some?
  {
    hide Build, Parse, ValidSlug;
  }

  /** The clock after the first `i` requests of a run that begins at `start`. */
  ghost function Clock(requests: seq<Request>, start: int, i: nat): int
    requires i <= |requests|
  {
    if i == 0 then start else requests[i - 1].now
  }

  /** No clock reading of the run is earlier than one before it. */
  ghost predicate Ordered(requests: seq<Request>, start: int) {
    forall i | 0 <= i < |requests| :: Clock(requests, start, i) <= requests[i].seen <= requests[i].now
  }

  /** Every rollback of the run was completed. */
  predicate Clean(outcomes: seq<Outcome>) {
    forall i | 0 <= i < |outcomes| :: !outcomes[i].RollbackFailed?
  }

  /** Every body that was written is plain. */
  ghost predicate AllPlain(w: World, requests: seq<Request>, outcomes: seq<Outcome>)
    requires |outcomes| <= |requests|
  {
    forall i | 0 <= i < |outcomes| && outcomes[i].Written? :: Plain(w, TrimSpace(requests[i].draft.body))
  }

  /** Every write that was not rejected could read the head, and the branch did not move unnoticed. */
  ghost predicate AllSeeHead(requests: seq<Request>, outcomes: seq<Outcome>)
    requires |outcomes| <= |requests|
  {
    forall i, b | 0 <= i < |outcomes| && !outcomes[i].Rejected? :: requests[i].SeesHead(b)
  }

  lemma OneMore(w: World, requests: seq<Request>, outcomes: seq<Outcome>, r: Outcome)
    requires |outcomes| < |requests|
    ensures Clean(outcomes + [r]) ==> Clean(outcomes) && !r.RollbackFailed?
    ensures AllPlain(w, requests, outcomes + [r]) ==>
              && AllPlain(w, requests, outcomes)
              && (r.Written? ==> Plain(w, TrimSpace(requests[|outcomes|].draft.body)))
    ensures AllSeeHead(requests, outcomes + [r]) ==>
              AllSeeHead(requests, outcomes) && (r.Rejected? || forall b :: requests[|outcomes|].SeesHead(b))
  {
    hide Plain, TrimSpace;
    var more := outcomes + [r];
    assert more[|outcomes|] == r && forall i | 0 <= i < |outcomes| :: more[i] == outcomes[i];
  }

  /** The rows a rollback puts back: those of the working note as it was read at `seen`, if there is one. */
  ghost function PriorRows(
      w: World, view: Metadata -> ConsoleRow, working: Files, slug: string, seen: int): Option<Rows>
  {
    if slug !in working then None
    else match FileEntry(w, working[slug], slug, Working, seen)
         case None => None
         case Some(e) => Some(RowsOf(w, view, e))
  }

  /** The curated and working directories, the cache if it is open, and the repository. */
  class Store {
    const w: World
    const view: Metadata -> ConsoleRow
    const git: LocalGit
    const index: Index?
    var curated: Files
    var working: Files
    /** The slugs written so far. */
    ghost var written: set<string>
    /** The clock reading at which the cache last took in each source. */
    ghost var since: map<string, int>

    constructor (w: World, view: Metadata -> ConsoleRow, index: Index?, curated: Files, working: Files)
      requires index != null ==> index.w == w && index.view == view && index.ForeignKeys()
      ensures this.w == w && this.view == view && this.index == index
      ensures this.curated == curated && this.working == working
      ensures fresh(git) && git.branch.None? && written == {} && since == map[]
      ensures Valid() && HeadMatches()
    {
      this.w, this.view, this.index := w, view, index;
      this.curated, this.working := curated, working;
      git := new LocalGit();
      written, since := {}, map[];
    }

    ghost predicate Valid()
      reads this, index
    {
      index != null ==> index.w == w && index.view == view && index.ForeignKeys()
    }

    ghost function Src(): Sources
      reads this
    {
      Sources(curated, working)
    }

    /** The open cache holds exactly what each source said when the cache took it in. */
    ghost predicate Tracks()
      reads this, index
    {
      && ReadableSince(w, Src(), since)
      && (index != null ==> IsRebuild(index.Contents(), w, view, EntriesSince(w, Src(), since)))
    }

    /** The cache is a rebuild at the given clock reading, but for review dates that have passed since it was kept. */
    ghost predicate UpToExpiry(now: int)
      reads this, index
    {
      && ReadableSince(w, Src(), since) && Readable(w, Src(), now)
      && (index != null ==>
            forall b | IsRebuild(b, w, view, Entries(w, Src(), now)) ::
              SameUpToExpiry(index.Contents(), b, w, EntriesSince(w, Src(), since), since, now))
    }

    /** The branch's tree holds the source of every slug written, and its history one allowed path per commit. */
    ghost predicate HeadMatches()
      reads this, git
    {
      OnePathEach(git.branch) && TreeHolds(git.branch, working, written)
    }

    /** `readWorkingRaw`. */
    method ReadWorkingRaw(slug: string, seen: int, ok: bool) returns (readable: bool, existing: Option<Note>)
      ensures readable <==> ok && (slug in working ==> Parse(w, working[slug], slug, Working, seen).Some?)
      ensures readable ==> existing == if slug in working then Parse(w, working[slug], slug, Working, seen) else None
    {
      if !ok {
        return false, None;
      }
      if slug !in working {
        return true, None;
      }
      var data := working[slug];
      if ByteLen(data) > MAX_FILE {
        return false, None;
      }
      existing := Parse(w, data, slug, Working, seen);
      return existing.Some?, existing;
    }

    /** `restoreSource`: puts back what was there `before` one file was overwritten. */
    method RestoreSource(slug: string, prior: Option<string>, ok: bool, ghost before: Files) returns (done: bool)
      requires prior == if slug in before then Some(before[slug]) else None
      requires slug in working && working == before[slug := working[slug]]
      modifies this`working
      ensures done == ok
      ensures working == if done then before else old(working)
    {
      if !ok {
        return false;
      }
      if prior.Some? {
        working := working[slug := prior.value];
      } else {
        working := working - {slug};
      }
      return true;
    }

    /** The checks of `WriteAgent` up to the first change. */
    method Prepare(draft: Draft, seen: int, now: int, f: Faults) returns (note: Option<Note>, existing: Option<Note>)
      ensures note.Some? <==>
              !f.cancelled && f.metadata && f.lookup && f.read && Proposal(w, Src(), draft, seen, now).Some?
      ensures note.Some? ==>
                && note == Proposal(w, Src(), draft, seen, now) && ValidSlug(draft.slug) && draft.slug !in curated
                && Accepted(w, note.value, now) && note.value.metadata.slug == draft.slug
                && (existing.Some? <==> draft.slug in working)
                && (existing.Some? ==>
                      && existing == Parse(w, working[draft.slug], draft.slug, Working, seen)
                      && existing.value.metadata.slug == draft.slug)
    {
      hide Parse, Build, Accepted, ValidSlug, ByteLen, Render, WellFormed, LinksOf, Trimmed, TrimSpace;
      note, existing := None, None;
      if f.cancelled || !f.metadata || !f.lookup {
        return;
      }
      if !ValidSlug(draft.slug) || draft.slug in curated {
        return;
      }
      var readable, found := ReadWorkingRaw(draft.slug, seen, f.read);
      if !readable {
        return;
      }
      note := Build(w, draft, found, now);
      if note.Some? {
        existing := found;
        BuildAccepts(w, draft, found, now);
        SlugIsTrimmed(draft.slug);
        if found.Some? { ParsedSlug(w, working[draft.slug], draft.slug, Working, seen); }
      }
    }

    /** Undoing the cache's part of a write whose commit failed. */
    method UndoIndex(slug: string, existing: Option<Note>, priorBytes: nat, ok: bool) returns (done: bool)
      requires Valid() && (existing.Some? ==> existing.value.metadata.slug == slug)
      modifies index
      ensures Valid()
      ensures done == (index == null || ok)
      ensures done && index != null ==>
                index.Contents() == Undone(old(index.Contents()), slug, RowsOfPrior(existing, priorBytes))
    {
      if index == null {
        return true;
      }
      if existing.Some? {
        done := index.Upsert(existing.value, priorBytes, ok);
      } else {
        done := index.Delete(slug, ok);
      }
    }

    ghost function RowsOfPrior(existing: Option<Note>, priorBytes: nat): Option<Rows> {
      if existing.Some? then Some(RowsOf(w, view, Entry(existing.value, priorBytes))) else None
    }

    /** The cache with the rows of the note. */
    ghost function AfterUpsert(note: Note): Tables
      requires index != null
      reads this, index
    {
      Replaced(index.Contents(), note.metadata.slug, RowsOf(w, view, Entry(note, ByteLen(Render(w, note)))))
    }

    /** The commit the repository makes for the note. */
    ghost function Committed(note: Note, f: Faults): Option<Commit>
      reads this, git
    {
      Some(git.Next(NotePath(note.metadata.slug), Render(w, note), f.git.revParse))
    }

    /** The cache has taken in the note, or is not open. */
    predicate Indexed(f: Faults) {
      index == null || f.upsert
    }

    /**
     `WriteAgent`. A rejected draft changes nothing. A written note is in all three stores. A
     failure that reports no failed rollback leaves sources and branch as they were, unless Git
     moved the branch and could not be asked about it; and it leaves the cache as it was exactly
     when what the cache held about the slug was what its source says, or the cache was not reached.
     */
    method WriteAgent(draft: Draft, seen: int, now: int, f: Faults) returns (r: Outcome)
      requires Valid()
      modifies this`working, this`written, this`since, index, git
      ensures Valid()
      ensures r.Rejected? <==>
              || f.cancelled || !f.metadata || !f.lookup || !f.read || !f.write
              || old(Proposal(w, Src(), draft, seen, now)).None?
      ensures r.Rejected? ==> working == old(working) && unchanged(git) && (index != null ==> unchanged(index))
      ensures r.Written? ==>
                && old(Proposal(w, Src(), draft, seen, now)) == Some(r.note) && Accepted(w, r.note, now)
                && r.note.metadata.slug == draft.slug && draft.slug !in curated && ValidSlug(draft.slug)
                && Src() == old(Src()).With(draft.slug, Render(w, r.note))
                && git.branch == old(Committed(r.note, f))
                && (index != null ==> index.Contents() == old(AfterUpsert(r.note)))
      ensures r.Written? ==>
                && draft.author != "owner"
                && r.note.metadata.title == TrimSpace(draft.title) && r.note.metadata.kind == draft.kind
                && r.note.metadata.author == TrimSpace(draft.author) && r.note.body == TrimSpace(draft.body)
                && r.note.metadata.provenance == TrimSpace(draft.provenance)
                && r.note.metadata.reviewBy == TrimSpace(draft.reviewBy)
      ensures r.Written? && draft.slug in old(working) ==>
                var prior := Parse(w, old(working)[draft.slug], draft.slug, Working, seen);
                && prior.Some? && prior.value.metadata.author == draft.author
                && prior.value.metadata.created == r.note.metadata.created
                && prior.value.metadata.consoleLabel == r.note.metadata.consoleLabel
                && prior.value.metadata.consoleSummary == r.note.metadata.consoleSummary
      ensures r.Failed? ==>
                && old(Proposal(w, Src(), draft, seen, now)).Some? && draft.slug !in curated
                && old(Proposal(w, Src(), draft, seen, now)).value.metadata.slug == draft.slug
                && working == old(working)
                && git.branch == (if Indexed(f) && f.git.ReachesUpdate() && f.git.LosesCommit()
                                  then old(Committed(Proposal(w, Src(), draft, seen, now).value, f))
                                  else old(git.branch))
      ensures r.Failed? && index != null ==>
                index.Contents() ==
                if !f.upsert then old(index.Contents())
                else Undone(
                  old(AfterUpsert(Proposal(w, Src(), draft, seen, now).value)), draft.slug,
                  PriorRows(w, view, working, draft.slug, seen))
      ensures r.Failed? && index != null ==>
                (index.Contents() == old(index.Contents()) <==>
                 || !f.upsert
                 || CurrentRows(old(index.Contents()), draft.slug, PriorRows(w, view, working, draft.slug, seen)))
      ensures !r.Rejected? && Indexed(f) && f.git.Works() ==> r.Written?
      ensures r.Written? ==> Indexed(f) && f.git.ReachesUpdate() && !f.git.LosesCommit()
      ensures r.RollbackFailed? <==>
              !r.Rejected? && !r.Written? && !(f.restore && (index == null || !f.upsert || f.undo))
      ensures written == if r.Written? then old(written) + {draft.slug} else old(written)
      ensures since == if r.Written? then old(since)[draft.slug := now]
                       else if r.Failed? && index != null && f.upsert && draft.slug in working
                       then old(since)[draft.slug := seen]
                       else old(since)
    {
      hide Render, Parse, Accepted, Build, ByteLen, RowsOf, Replaced, Without;
      hide AllowedPath, ValidSlug, TreeOf, CurrentRows;
      hide NotePath;
      var built, existing := Prepare(draft, seen, now, f);
      ProposalMeans(w, Src(), draft, seen, now);
      hide TrimSpace;
      if built.None? || !f.write {
        return Rejected;
      }
      r := Publish(built.value, existing, f);
      ghost var prior := PriorRows(w, view, old(working), draft.slug, seen);
      assert prior == old(RowsOfPrior(existing, PriorSize(working, draft.slug)));
      if r.Failed? && index != null {
        UndoRestoresIff(
          old(index.Contents()), draft.slug, RowsOf(w, view, Entry(built.value, ByteLen(Render(w, built.value)))),
          prior);
      }
      if r.Written? {
        since := since[draft.slug := now];
      } else if r.Failed? && index != null && f.upsert && draft.slug in working {
        since := since[draft.slug := seen];
      }
    }

    /** `WriteAgent` from the first change on. */
    method Publish(note: Note, existing: Option<Note>, f: Faults) returns (r: Outcome)
      requires Valid() && ValidSlug(note.metadata.slug)
      requires existing.Some? <==> note.metadata.slug in working
      requires existing.Some? ==> existing.value.metadata.slug == note.metadata.slug
      modifies this`working, this`written, index, git
      ensures Valid() && !r.Rejected?
      ensures r.Written? ==>
                && r.note == note && Src() == old(Src()).With(note.metadata.slug, Render(w, note))
                && git.branch == old(Committed(note, f))
                && (index != null ==> index.Contents() == old(AfterUpsert(note)))
      ensures r.Failed? ==>
                && working == old(working)
                && git.branch == (if Indexed(f) && f.git.ReachesUpdate() && f.git.LosesCommit()
                                  then old(Committed(note, f)) else old(git.branch))
                && (index != null ==>
                      index.Contents() == if !f.upsert then old(index.Contents())
                                          else Undone(
                                            old(AfterUpsert(note)), note.metadata.slug,
                                            old(RowsOfPrior(existing, PriorSize(working, note.metadata.slug)))))
      ensures Indexed(f) && f.git.Works() ==> r.Written?
      ensures r.Written? ==> Indexed(f) && f.git.ReachesUpdate() && !f.git.LosesCommit()
      ensures r.RollbackFailed? <==> !r.Written? && !(f.restore && (index == null || !f.upsert || f.undo))
      ensures written == if r.Written? then old(written) + {note.metadata.slug} else old(written)
    {
      var slug := note.metadata.slug;
      var prior := if slug in working then Some(working[slug]) else None;
      var encoded := Render(w, note);
      hide Render, ByteLen, RowsOf, Replaced, Without, AllowedPath, ValidSlug, TreeOf, NotePath;
      working := working[slug := encoded];
      if index != null {
        var indexed := index.Upsert(note, ByteLen(encoded), f.upsert);
        if !indexed {
          var restored := RestoreSource(slug, prior, f.restore, old(working));
          return if restored then Failed else RollbackFailed;
        }
      }
      var failure := Record(slug, prior, existing, f, old(working));
      r := if failure.None? then Written(note) else failure.value;
    }

    /** The commit of a write, and the compensation when it fails. */
    method Record(slug: string, prior: Option<string>, existing: Option<Note>, f: Faults, ghost before: Files)
      returns (r: Option<Outcome>)
      requires Valid() && ValidSlug(slug) && (existing.Some? ==> existing.value.metadata.slug == slug)
      requires prior == if slug in before then Some(before[slug]) else None
      requires slug in working && working == before[slug := working[slug]]
      modifies this`working, this`written, index, git
      ensures Valid()
      ensures r.None? ==>
                && working == old(working)
                && git.branch == Some(old(git.Next(NotePath(slug), working[slug], f.git.revParse)))
                && (index != null ==> unchanged(index))
                && written == old(written) + {slug}
      ensures r.Some? ==> written == old(written) && (r.value == Failed || r.value == RollbackFailed)
      ensures r == Some(Failed) ==>
                && working == before
                && git.branch == (if f.git.ReachesUpdate() && f.git.LosesCommit()
                                  then Some(old(git.Next(NotePath(slug), working[slug], f.git.revParse)))
                                  else old(git.branch))
                && (index != null ==>
                      index.Contents() ==
                      Undone(old(index.Contents()), slug, RowsOfPrior(existing, PriorSize(before, slug))))
      ensures f.git.Works() ==> r.None?
      ensures r.None? ==> f.git.ReachesUpdate() && !f.git.LosesCommit()
      ensures r == Some(RollbackFailed) <==> r.Some? && !(f.restore && (index == null || f.undo))
    {
      NotePathAllowed(slug);
      hide Render, ByteLen, RowsOf, Replaced, Without, AllowedPath, ValidSlug, TreeOf, NotePath;
      var committed := git.CommitPath(NotePath(slug), working[slug], f.git);
      if committed {
        written := written + {slug};
        return None;
      }
      var restored := RestoreSource(slug, prior, f.restore, before);
      if !restored {
        return Some(RollbackFailed);
      }
      var undone := UndoIndex(slug, existing, if prior.Some? then ByteLen(prior.value) else 0, f.undo);
      return Some(if undone then Failed else RollbackFailed);
    }

    /**
     One request of a run, at any clock readings. The cache goes on holding what each source said
     when it was taken in, after every ending but a failed rollback; a written note keeps that
     exactly when its body is plain. The branch's tree goes on holding the sources, and the history
     only grows, whenever the head can be read.
     */
    method Serve(q: Request) returns (r: Outcome)
      requires Valid() && CodecInverts(w)
      modifies this`working, this`written, this`since, index, git
      ensures Valid()
      ensures old(Tracks()) && !r.RollbackFailed? && (!r.Written? || Plain(w, TrimSpace(q.draft.body))) ==> Tracks()
      ensures old(Tracks()) && r.Written? && index != null && Tracks() ==> Plain(w, TrimSpace(q.draft.body))
      ensures old(Tracks()) && old(Until(since, q.seen)) && q.seen <= q.now ==> Until(since, q.now)
      ensures old(HeadMatches()) && (r.Rejected? || q.SeesHead(old(git.branch))) && !r.RollbackFailed? ==>
                HeadMatches() && Extends(git.branch, old(git.branch))
    {
      hide CodecInverts, OnePathEach, IsRebuild, ReadableSince, EntriesSince, Accepted, Render, ByteLen;
      hide RowsOf, Replaced;
      hide Undone, PriorRows, CurrentRows, NotePath, TreeOf, TreeHolds, ValidSlug, Plain, TrimSpace;
      hide Proposal, FileEntry;
      ghost var tables := if index != null then index.Contents() else EMPTY;
      r := WriteAgent(q.draft, q.seen, q.now, q.faults);
      if old(Tracks()) {
        if r.Written? {
          ProposedBody(w, old(Src()), q.draft, q.seen, q.now);
          CurrentAfterWrite(tables, w, view, old(Src()), old(since), r.note, q.now);
        } else if r.Failed? && index != null && q.faults.upsert {
          var note := old(Proposal(w, Src(), q.draft, q.seen, q.now)).value;
          var e := Entry(note, ByteLen(Render(w, note)));
          if q.draft.slug in working {
            ProposalReads(w, Src(), q.draft, q.seen, q.now);
            CurrentAfterRestore(tables, w, view, Src(), old(since), q.draft.slug, q.seen, e);
          } else {
            CurrentAfterRemoval(tables, w, view, Src(), old(since), q.draft.slug, q.seen, e);
          }
        }
      }
      if old(HeadMatches()) && q.SeesHead(old(git.branch)) && r.Written? {
        HeadAfterWrite(old(git.branch), old(working), old(written), q.draft.slug, Render(w, r.note));
      }
    }

    /**
     Any sequence of requests, as long as no rollback fails. If all bodies written are plain, the
     cache holds what each source said when it was taken in, so at the end of the run it is a rebuild
     up to review dates that have passed. If the heads could be read, the branch has only grown, and
     its tree holds the source of every slug written.
     */
    method ServeAll(requests: seq<Request>, start: int) returns (outcomes: seq<Outcome>)
      requires Valid() && CodecInverts(w)
      modifies this`working, this`written, this`since, index, git
      ensures Valid() && |outcomes| == |requests|
      ensures old(Tracks()) && Clean(outcomes) && AllPlain(w, requests, outcomes) ==> Tracks()
      ensures old(Tracks()) && Clean(outcomes) && AllPlain(w, requests, outcomes)
              && old(Until(since, start)) && Ordered(requests, start) ==>
                && Until(since, Clock(requests, start, |requests|))
                && (CalendarAdvances(w) ==> UpToExpiry(Clock(requests, start, |requests|)))
      ensures old(HeadMatches()) && Clean(outcomes) && AllSeeHead(requests, outcomes) ==>
                HeadMatches() && Extends(git.branch, old(git.branch))
    {
      hide CodecInverts, OnePathEach, Tracks, UpToExpiry, HeadMatches, Until, Plain, TrimSpace, CalendarAdvances;
      outcomes := [];
      for i := 0 to |requests|
        invariant Valid() && |outcomes| == i
        invariant old(Tracks()) && Clean(outcomes) && AllPlain(w, requests, outcomes) ==> Tracks()
        invariant old(Tracks()) && Clean(outcomes) && AllPlain(w, requests, outcomes)
                  && old(Until(since, start)) && Ordered(requests, start) ==>
                    Until(since, Clock(requests, start, i))
        invariant old(HeadMatches()) && Clean(outcomes) && AllSeeHead(requests, outcomes) ==>
                    HeadMatches() && Extends(git.branch, old(git.branch))
      {
        ghost var before := git.branch;
        UntilLater(since, Clock(requests, start, i), requests[i].seen);
        var r := Serve(requests[i]);
        OneMore(w, requests, outcomes, r);
        outcomes := outcomes + [r];
        if Extends(git.branch, before) && Extends(before, old(git.branch)) {
          ExtendsTransitive(git.branch, before, old(git.branch));
        }
        hide Clean, AllPlain, AllSeeHead;
      }
      if Tracks() && Until(since, Clock(requests, start, |requests|)) && CalendarAdvances(w) {
        KeptUpToExpiry(Clock(requests, start, |requests|));
      }
    }

    lemma KeptUpToExpiry(now: int)
      requires Tracks() && Until(since, now) && CalendarAdvances(w)
      ensures UpToExpiry(now)
    {
      EntriesLater(w, Src(), since, now);
      hide ReadableSince, EntriesSince, IsRebuild, SameUpToExpiry, Until, CalendarAdvances;
      if index != null {
        forall b | IsRebuild(b, w, view, Entries(w, Src(), now))
          ensures SameUpToExpiry(index.Contents(), b, w, EntriesSince(w, Src(), since), since, now)
        {
          CurrentUpToExpiry(index.Contents(), b, w, view, Src(), since, now);
        }
      }
    }

    /**
     `Reindex`: succeeds exactly on indexable sources with an open cache, and then the cache is a
     rebuild of the sources as they are; a cache that was one is not changed.
     */
    method Reindex(names: Listing, now: int, ok: bool) returns (done: bool)
      requires Valid() && RedactorSettles(w) && names.Of(Src())
      modifies index, this`since
      ensures Valid()
      ensures done <==> index != null && ok && Indexable(w, Src(), names, now)
      ensures done ==> Tracks() && since == AllAt(Src(), now)
      ensures !done ==> since == old(since)
      ensures index != null && !done ==> index.Contents() == old(index.Contents())
      ensures done && old(IsRebuild(index.Contents(), w, view, Entries(w, Src(), now))) ==>
                index.Contents() == old(index.Contents())
    {
      hide IsRebuild, ReadableSince, EntriesSince, Keyed, Sanitized, Indexable, RedactorSettles, Lists;
      var sources := ScanSources(w, Sources(curated, working), names, now);
      if sources.None? || index == null {
        return false;
      }
      done := index.ReplaceAll(sources.value, ok);
      if done {
        ReadableIfIndexable(w, Src(), names, now);
        ghost var m := Entries(w, Src(), now);
        SanitizedRebuildsSame(index.Contents(), w, view, m);
        if old(IsRebuild(index.Contents(), w, view, m)) {
          RebuildUnique(index.Contents(), old(index.Contents()), w, view, m);
        }
        since := AllAt(Src(), now);
      }
    }
  }

  function PriorSize(working: Files, slug: string): nat {
    if slug in working then ByteLen(working[slug]) else 0
  }

  lemma UntilLater(since: map<string, int>, now: int, later: int)
    ensures Until(since, now) && now <= later ==> Until(since, later)
  {
  }

  lemma ReadableIfIndexable(w: World, src: Sources, names: Listing, now: int)
    requires names.Of(src) && Indexable(w, src, names, now)
    ensures Readable(w, src, now)
  {
  }

  /**
   A rolled-back write of a note that existed leaves tables that are current, its own source as of
   the moment it was read.
   */
  lemma CurrentAfterRestore(
      t: Tables, w: World, view: Metadata -> ConsoleRow, src: Sources, since: map<string, int>, slug: string,
      seen: int, e: Entry)
    requires ReadableSince(w, src, since) && slug !in src.curated && slug in src.working
    requires FileEntry(w, src.working[slug], slug, Working, seen).Some?
    requires IsRebuild(t, w, view, EntriesSince(w, src, since))
    ensures ReadableSince(w, src, since[slug := seen])
    ensures IsRebuild(Undone(Replaced(t, slug, RowsOf(w, view, e)), slug, PriorRows(w, view, src.working, slug, seen)),
                      w, view, EntriesSince(w, src, since[slug := seen]))
  {
    hide *;
    SameFile(src, slug);
    EntriesAfterWrite(w, src, since, slug, src.working[slug], seen);
    var m := EntriesSince(w, src, since);
    IncrementalIsRebuild(t, w, view, m, slug, e);
    PutBack(Replaced(t, slug, RowsOf(w, view, e)), w, view, m, slug, e, src.working, seen);
  }

  /** A rolled-back write of a new note leaves tables that are as current as before. */
  lemma CurrentAfterRemoval(
      t: Tables, w: World, view: Metadata -> ConsoleRow, src: Sources, since: map<string, int>, slug: string,
      seen: int, e: Entry)
    requires ReadableSince(w, src, since) && slug !in src.curated && slug !in src.working
    requires IsRebuild(t, w, view, EntriesSince(w, src, since))
    ensures IsRebuild(Undone(Replaced(t, slug, RowsOf(w, view, e)), slug, PriorRows(w, view, src.working, slug, seen)),
                      w, view, EntriesSince(w, src, since))
  {
    var m := EntriesSince(w, src, since);
    assert slug !in m;
    hide *;
    IncrementalIsRebuild(t, w, view, m, slug, e);
    TakenOut(Replaced(t, slug, RowsOf(w, view, e)), w, view, m, slug, e, src.working, seen);
  }

  lemma SameFile(src: Sources, slug: string)
    requires slug in src.working
    ensures src.With(slug, src.working[slug]) == src
  {
  }

  lemma PutBack(
      t: Tables, w: World, view: Metadata -> ConsoleRow, m: map<string, Entry>, slug: string, e: Entry,
      working: Files, seen: int)
    requires IsRebuild(t, w, view, m[slug := e])
    requires slug in working && FileEntry(w, working[slug], slug, Working, seen).Some?
    ensures IsRebuild(Undone(t, slug, PriorRows(w, view, working, slug, seen)), w, view,
                      m[slug := FileEntry(w, working[slug], slug, Working, seen).value])
  {
    hide IsRebuild, RowsOf, Replaced, Without, FileEntry;
    var back := FileEntry(w, working[slug], slug, Working, seen).value;
    IncrementalIsRebuild(t, w, view, m[slug := e], slug, back);
    UpdatedAgain(m, slug, e, back);
  }

  lemma TakenOut(
      t: Tables, w: World, view: Metadata -> ConsoleRow, m: map<string, Entry>, slug: string, e: Entry,
      working: Files, seen: int)
    requires IsRebuild(t, w, view, m[slug := e]) && slug !in working && slug !in m
    ensures IsRebuild(Undone(t, slug, PriorRows(w, view, working, slug, seen)), w, view, m)
  {
    hide IsRebuild, RowsOf, Replaced, Without;
    DeleteIsRebuild(t, w, view, m[slug := e], slug);
    UpdatedAgain(m, slug, e, e);
    SameRemoval(m, slug);
  }
}
