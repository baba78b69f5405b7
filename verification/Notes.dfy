/**
 Brain notes: strict front matter plus a Markdown body (internal/brain/model.go).
 The YAML codec, the clock formats and the secret detector are parameters.
 */
module Notes {
  import opened Text
  import opened Links

  const MAX_TITLE: nat := 160
  const MAX_LABEL_RUNES: nat := 32
  const MAX_SUMMARY: nat := 160
  const MAX_PROVENANCE: nat := 1024
  const MAX_BODY: nat := 32 * 1024
  const MAX_FILE: nat := 40 * 1024
  const FUTURE_SLACK := 300
  const OWNER := "owner"
  const AGENT := "agent:"
  const NOTE_TYPES := {"fact", "note", "feedback", "reference", "hypothesis"}
  const DELIMITER := "\n---\n"

  datatype Trust = Curated | Working

  datatype Metadata = Metadata(
    slug: string,
    title: string,
    kind: string,
    author: string,
    created: string,
    updated: string,
    provenance: string,
    reviewBy: string,
    consoleLabel: string,
    consoleSummary: string)

  datatype Note = Note(metadata: Metadata, body: string, trust: Trust, links: seq<string>, expired: bool)

  datatype Draft = Draft(
    slug: string, title: string, kind: string, author: string, provenance: string, reviewBy: string, body: string)

  /**
   What the note code takes from elsewhere: `encode`/`decode` of one YAML document, `instant` and
   `day` of the accepted time formats (in seconds and days), the stamp of a clock reading, the
   date of a reading, the date a year after a date, and the secret detector.
   */
  datatype World = World(
    encode: Metadata -> string,
    decode: string -> Option<Metadata>,
    instant: string -> Option<int>,
    day: string -> Option<int>,
    stamp: int -> string,
    today: int -> int,
    yearAfter: int -> int,
    redact: string -> string)

  // -------------------------------------------------------------- validation

  predicate HasNone(s: string, chars: string) {
    forall c | c in s :: c !in chars
  }

  predicate SingleLine(value: string, maximum: nat) {
    value != "" && Trimmed(value) && ByteLen(value) <= maximum && HasNone(value, "\r\n\0")
  }

  predicate ValidLabel(value: string) {
    value == "" || (Trimmed(value) && |value| <= MAX_LABEL_RUNES && HasNone(value, "\r\n\0"))
  }

  predicate AgentChar(c: char) { SlugChar(c) || c == '.' || c == '_' || c == '-' }

  predicate ValidAgent(author: string) {
    && AGENT <= author
    && var name := author[|AGENT|..];
    && 1 <= |name| <= 64
    && SlugChar(name[0]) && SlugChar(name[|name| - 1])
    && forall i | 0 <= i < |name| :: AgentChar(name[i])
  }

  predicate ValidAuthor(author: string, trust: Trust) {
    author == OWNER || (ValidAgent(author) && trust.Working?)
  }

  /** The checks of `validateMetadata` that do not look at the clock. */
  predicate WellFormed(w: World, m: Metadata, trust: Trust) {
    && ValidSlug(m.slug)
    && SingleLine(m.title, MAX_TITLE)
    && ValidLabel(m.consoleLabel)
    && (m.consoleSummary == "" || SingleLine(m.consoleSummary, MAX_SUMMARY))
    && m.kind in NOTE_TYPES
    && ValidAuthor(m.author, trust)
    && SingleLine(m.provenance, MAX_PROVENANCE)
    && w.instant(m.created).Some? && w.instant(m.updated).Some?
    && w.instant(m.created).value <= w.instant(m.updated).value
    && (AGENT <= m.author ==> m.reviewBy != "")
    && (m.reviewBy != "" ==> w.day(m.reviewBy).Some?)
  }

  /** The review date has passed. */
  predicate Expired(w: World, m: Metadata, now: int) {
    m.reviewBy != "" && w.day(m.reviewBy).Some? && w.day(m.reviewBy).value < w.today(now)
  }

  /** `validateMetadata`: `None` where it reports an error, otherwise whether the note has expired. */
  function Validate(w: World, m: Metadata, slug: string, trust: Trust, now: int, agentWrite: bool): (r: Option<bool>)
    ensures r.Some? ==> WellFormed(w, m, trust) && r.value == Expired(w, m, now)
  {
    if !WellFormed(w, m, trust) || (slug != "" && m.slug != slug) then None
    else if w.instant(m.updated).value > now + FUTURE_SLACK then None
    else if agentWrite && !(AGENT <= m.author) then None
    else if agentWrite && m.reviewBy != ""
         && (Expired(w, m, now) || w.day(m.reviewBy).value > w.yearAfter(w.today(now)))
    then None
    else Some(Expired(w, m, now))
  }

  /** Exactly which metadata is accepted, at a clock reading and for a writer. */
  lemma ValidateIff(w: World, m: Metadata, slug: string, trust: Trust, now: int, agentWrite: bool)
    ensures Validate(w, m, slug, trust, now, agentWrite).Some? <==>
            && ValidSlug(m.slug) && (slug == "" || m.slug == slug)
            && IsLine(m.title) && ByteLen(m.title) <= 160
            && (m.consoleLabel == "" || (IsLine(m.consoleLabel) && |m.consoleLabel| <= 32))
            && (m.consoleSummary == "" || (IsLine(m.consoleSummary) && ByteLen(m.consoleSummary) <= 160))
            && m.kind in ["fact", "note", "feedback", "reference", "hypothesis"]
            && ((m.author == "owner" && !agentWrite) || (IsAgent(m.author) && trust.Working? && m.reviewBy != ""))
            && IsLine(m.provenance) && ByteLen(m.provenance) <= 1024
            && w.instant(m.created).Some? && w.instant(m.updated).Some?
            && w.instant(m.created).value <= w.instant(m.updated).value <= now + 300
            && (m.reviewBy != "" ==>
                  && w.day(m.reviewBy).Some?
                  && (agentWrite ==> w.today(now) <= w.day(m.reviewBy).value <= w.yearAfter(w.today(now))))
  {
    AgentIff(m.author);
    if m.author == OWNER { OwnerIsNoAgent(m.author); }
    hide ValidSlug, Trimmed, ByteLen, ValidAgent, IsAgent;
  }

  /** One line of text without white space at its ends. */
  predicate IsLine(value: string) {
    value != "" && Trimmed(value) && '\r' !in value && '\n' !in value && '\0' !in value
  }

  /** `agent:` and a name of 1 to 64 characters that begins and ends with a letter or digit. */
  predicate IsAgent(author: string) {
    && 7 <= |author| <= 70 && author[..6] == "agent:"
    && SlugChar(author[6]) && SlugChar(author[|author| - 1])
    && forall i | 6 <= i < |author| :: SlugChar(author[i]) || author[i] in "._-"
  }

  lemma AgentIff(author: string)
    ensures ValidAgent(author) <==> IsAgent(author)
    ensures ValidAgent(author) ==> AGENT <= author
  {
    if AGENT <= author {
      var name := author[|AGENT|..];
      assert author[..6] == AGENT;
      assert forall i | 0 <= i < |name| :: name[i] == author[i + 6];
      assert forall i | 6 <= i < |author| :: author[i] == name[i - 6];
    } else if |author| >= 6 {
      assert author[..6] != AGENT;
    }
  }

  lemma OwnerIsNoAgent(author: string)
    requires author == OWNER
    ensures !(AGENT <= author) && !ValidAgent(author)
  {
    assert author[0] == 'o';
  }

  // ------------------------------------------------------- rendering, parsing

  /** `strings.ReplaceAll(s, "\r\n", "\n")`. */
  function Unix(s: string): string {
    if s == "" then ""
    else if |s| >= 2 && s[0] == '\r' && s[1] == '\n' then "\n" + Unix(s[2..])
    else [s[0]] + Unix(s[1..])
  }

  function Render(w: World, note: Note): string {
    "---\n" + w.encode(note.metadata) + "---\n\n" + TrimSpace(note.body) + "\n"
  }

  function TrimPrefix(s: string, p: string): string {
    if StartsWith(s, p) then s[|p|..] else s
  }

  /** Header and trimmed body of a note file, if its delimiters are in place. */
  function Separate(normalized: string): Option<(string, string)> {
    SeparateWith(normalized, "---\n", DELIMITER, "\n")
  }

  function SeparateWith(s: string, fence: string, delimiter: string, newline: string): Option<(string, string)> {
    if !StartsWith(s, fence) then None
    else
      var rest := From(s, |fence|);
      match IndexFrom(rest, delimiter, 0)
      case None => None
      case Some(end) => Some((Upto(rest, end), TrimSpace(TrimPrefix(From(rest, end + |delimiter|), newline))))
  }

  function From(s: string, n: nat): string { if n <= |s| then s[n..] else "" }

  function Upto(s: string, n: nat): string { if n <= |s| then s[..n] else s }

  /** `ParseNote`. */
  function Parse(w: World, data: string, slug: string, trust: Trust, now: int): Option<Note> {
    if data == "" || ByteLen(data) > MAX_FILE then None
    else
      match Separate(Unix(data))
      case None => None
      case Some((header, body)) => ParseParts(w, header, body, slug, trust, now)
  }

  /** `ParseNote` once header and body are separated. */
  function ParseParts(w: World, header: string, body: string, slug: string, trust: Trust, now: int): Option<Note> {
    if body == "" || ByteLen(body) > MAX_BODY then None
    else
      match w.decode(header)
      case None => None
      case Some(metadata) =>
        match Validate(w, metadata, slug, trust, now, false)
        case None => None
        case Some(expired) =>
          match LinksOf(body)
          case None => None
          case Some(links) => Some(Note(metadata, body, trust, links, expired))
  }

  /** A text with a front matter: the first line of dashes after the opening one ends the header. */
  ghost predicate HasHeader(s: string, header: string, tail: string) {
    && s == "---\n" + header + DELIMITER + tail
    && forall i | 0 <= i < |header| :: !At(header + DELIMITER + tail, DELIMITER, i)
  }

  /** Exactly when a source with a front matter parses, and to what. */
  lemma ParseIff(w: World, data: string, slug: string, trust: Trust, now: int, header: string, tail: string)
    requires HasHeader(Unix(data), header, tail)
    ensures var body := TrimSpace(if StartsWith(tail, "\n") then tail[1..] else tail);
            var note := Parse(w, data, slug, trust, now);
            && (note.Some? <==>
                && ByteLen(data) <= 40960 && body != "" && ByteLen(body) <= 32768 && w.decode(header).Some?
                && Validate(w, w.decode(header).value, slug, trust, now, false).Some? && LinksOf(body).Some?)
            && (note.Some? ==>
                  && note.value.metadata == w.decode(header).value && note.value.body == body
                  && note.value.trust == trust && Some(note.value.links) == LinksOf(body)
                  && note.value.expired == Expired(w, note.value.metadata, now))
  {
    var body := TrimSpace(if StartsWith(tail, "\n") then tail[1..] else tail);
    assert data != "";
    hide *;
    SeparateIs(Unix(data), header, tail);
    ParseOf(w, data, slug, trust, now, header, body);
    PartsIff(w, header, body, slug, trust, now);
  }

  lemma ParseOf(w: World, data: string, slug: string, trust: Trust, now: int, header: string, body: string)
    requires data != "" && Separate(Unix(data)) == Some((header, body))
    ensures Parse(w, data, slug, trust, now) ==
            if ByteLen(data) <= 40960 then ParseParts(w, header, body, slug, trust, now) else None
  {
    hide Separate, Unix, ByteLen, ParseParts;
  }

  lemma PartsIff(w: World, header: string, body: string, slug: string, trust: Trust, now: int)
    ensures var note := ParseParts(w, header, body, slug, trust, now);
            && (note.Some? <==>
                && body != "" && ByteLen(body) <= 32768 && w.decode(header).Some?
                && Validate(w, w.decode(header).value, slug, trust, now, false).Some? && LinksOf(body).Some?)
            && (note.Some? ==>
                  && note.value.metadata == w.decode(header).value && note.value.body == body
                  && note.value.trust == trust && Some(note.value.links) == LinksOf(body)
                  && note.value.expired == Expired(w, note.value.metadata, now))
  {
    hide ByteLen, LinksOf, WellFormed, Expired;
  }

  lemma SeparateIs(s: string, header: string, tail: string)
    requires HasHeader(s, header, tail)
    ensures Separate(s) == Some((header, TrimSpace(if StartsWith(tail, "\n") then tail[1..] else tail)))
  {
    var rest := header + DELIMITER + tail;
    Fronted(s, header, tail);
    FirstAt(rest, DELIMITER, |header|);
    assert |DELIMITER| == 5;
    hide *;
    var body := if StartsWith(tail, "\n") then tail[1..] else tail;
    SeparatesInto(s, rest, "---\n", DELIMITER, "\n", |header|, |header| + 5, header, tail, body, TrimSpace(body));
  }

  lemma Fronted(s: string, header: string, tail: string)
    requires s == "---\n" + header + DELIMITER + tail
    ensures var rest := header + DELIMITER + tail;
            && StartsWith(s, "---\n") && From(s, 4) == rest && At(rest, DELIMITER, |header|)
            && Upto(rest, |header|) == header && From(rest, |header| + 5) == tail
  {
    var rest := header + DELIMITER + tail;
    assert s == "---\n" + rest;
    assert s[..4] == "---\n" && s[4..] == rest && rest[|header|..|header| + 5] == DELIMITER;
    assert rest[..|header|] == header && rest[|header| + 5..] == tail;
  }

  lemma FirstAt(s: string, p: string, k: nat)
    requires At(s, p, k) && forall i | 0 <= i < k :: !At(s, p, i)
    ensures IndexFrom(s, p, 0) == Some(k)
  {
    IndexIsFirst(s, p, 0);
    hide At, IndexFrom;
  }

  /** And without one it does not. */
  lemma ParseNeedsHeader(w: World, data: string, slug: string, trust: Trust, now: int)
    requires !StartsWith(Unix(data), "---\n") || !Contains(Unix(data)[4..], DELIMITER)
    ensures Parse(w, data, slug, trust, now).None?
  {
    if StartsWith(Unix(data), "---\n") { IndexIsFirst(Unix(data)[4..], DELIMITER, 0); }
    hide Unix, ByteLen, TrimSpace, LinksOf, Validate, IndexFrom, At;
  }

  /** `BuildAgentNote`. */
  function Build(w: World, draft: Draft, existing: Option<Note>, now: int): Option<Note> {
    if draft.author == OWNER then None
    else if existing.Some? && (!existing.value.trust.Working? || existing.value.metadata.slug != draft.slug
                               || existing.value.metadata.author != draft.author) then None
    else
      var metadata := Metadata(
                        TrimSpace(draft.slug), TrimSpace(draft.title), draft.kind, TrimSpace(draft.author),
                        if existing.Some? then existing.value.metadata.created else w.stamp(now),
                        w.stamp(now),
                        TrimSpace(draft.provenance), TrimSpace(draft.reviewBy),
                        if existing.Some? then existing.value.metadata.consoleLabel else "",
                        if existing.Some? then existing.value.metadata.consoleSummary else "");
      var body := TrimSpace(draft.body);
      var screened := metadata.title + "\n" + metadata.provenance + "\n" + body;
      if body == "" || ByteLen(body) > MAX_BODY || w.redact(screened) != screened then None
      else
        match Validate(w, metadata, metadata.slug, Working, now, true)
        case None => None
        case Some(expired) =>
          match LinksOf(body)
          case None => None
          case Some(links) =>
            var note := Note(metadata, body, Working, links, expired);
            if ByteLen(Render(w, note)) > MAX_FILE then None else Some(note)
  }

  /** The metadata an agent's draft asks for: its own, with what the server owns and what an existing note keeps. */
  predicate AsDrafted(w: World, draft: Draft, existing: Option<Note>, now: int, m: Metadata) {
    && m.slug == TrimSpace(draft.slug) && m.title == TrimSpace(draft.title) && m.kind == draft.kind
    && m.author == TrimSpace(draft.author) && m.provenance == TrimSpace(draft.provenance)
    && m.reviewBy == TrimSpace(draft.reviewBy) && m.updated == w.stamp(now)
    && m.created == (if existing.Some? then existing.value.metadata.created else w.stamp(now))
    && m.consoleLabel == (if existing.Some? then existing.value.metadata.consoleLabel else "")
    && m.consoleSummary == (if existing.Some? then existing.value.metadata.consoleSummary else "")
  }

  /**
   What an agent's write may become: not the owner's, over an existing note only a working one of
   the same slug and author, whose creation and console texts it keeps, and nothing the redactor
   would change.
   */
  lemma BuiltNote(w: World, draft: Draft, existing: Option<Note>, now: int)
    requires Build(w, draft, existing, now).Some?
    ensures var note := Build(w, draft, existing, now).value;
            && draft.author != "owner"
            && (existing.Some? ==>
                  && existing.value.trust.Working? && existing.value.metadata.slug == draft.slug
                  && existing.value.metadata.author == draft.author
                  && note.metadata.created == existing.value.metadata.created
                  && note.metadata.consoleLabel == existing.value.metadata.consoleLabel
                  && note.metadata.consoleSummary == existing.value.metadata.consoleSummary)
            && (existing.None? ==>
                  && note.metadata.created == w.stamp(now)
                  && note.metadata.consoleLabel == "" && note.metadata.consoleSummary == "")
            && note.metadata.slug == TrimSpace(draft.slug) && note.metadata.title == TrimSpace(draft.title)
            && note.metadata.kind == draft.kind && note.metadata.author == TrimSpace(draft.author)
            && note.metadata.provenance == TrimSpace(draft.provenance)
            && note.metadata.reviewBy == TrimSpace(draft.reviewBy) && note.metadata.updated == w.stamp(now)
            && note.body == TrimSpace(draft.body) && note.trust.Working? && Some(note.links) == LinksOf(note.body)
            && var screened := note.metadata.title + "\n" + note.metadata.provenance + "\n" + note.body;
               w.redact(screened) == screened
  {
    hide TrimSpace, LinksOf, WellFormed, Render, ByteLen;
  }

  /** And exactly when it may. */
  lemma BuildIff(w: World, draft: Draft, existing: Option<Note>, now: int, m: Metadata)
    requires AsDrafted(w, draft, existing, now, m)
    ensures var body := TrimSpace(draft.body);
            Build(w, draft, existing, now).Some? <==>
            && draft.author != "owner"
            && (existing.Some? ==>
                  && existing.value.trust.Working? && existing.value.metadata.slug == draft.slug
                  && existing.value.metadata.author == draft.author)
            && body != "" && ByteLen(body) <= 32768 && LinksOf(body).Some?
            && w.redact(m.title + "\n" + m.provenance + "\n" + body) == m.title + "\n" + m.provenance + "\n" + body
            && Validate(w, m, m.slug, Working, now, true).Some?
            && ByteLen(Render(w, Note(m, body, Working, LinksOf(body).value, false))) <= 40960
  {
    hide TrimSpace, LinksOf, ByteLen, WellFormed;
    if Validate(w, m, m.slug, Working, now, true).Some? { ValidateIff(w, m, m.slug, Working, now, true); }
  }

  // -------------------------------------------------------------- round trip

  /**
   What is asked of the YAML codec: a valid header is one document that ends its last line,
   holds no CRLF and no bare `---` line, and decodes to what was encoded, with or without
   that last line end.
   */
  ghost predicate CodecInverts(w: World) {
    forall m, trust | WellFormed(w, m, trust) ::
      var e := w.encode(m);
      && e != "" && e[|e| - 1] == '\n'
      && !Contains(e, "\r\n") && !Contains(e, DELIMITER)
      && w.decode(e[..|e| - 1]) == Some(m)
  }

  lemma {:induction false} UnixConcat(a: string, b: string)
    requires a == "" || b == "" || a[|a| - 1] != '\r' || b[0] != '\n'
    ensures Unix(a + b) == Unix(a) + Unix(b)
  {
    var s := a + b;
    if a == "" || b == "" {
      assert s == if a == "" then b else a;
    } else if |a| == 1 {
      assert s[1..] == b && a[1..] == "";
    } else if a[0] == '\r' && a[1] == '\n' {
      assert s[2..] == a[2..] + b;
      UnixConcat(a[2..], b);
    } else {
      assert s[1..] == a[1..] + b;
      UnixConcat(a[1..], b);
    }
  }

  predicate CrlfAt(s: string, i: int) {
    0 <= i && i + 1 < |s| && s[i] == '\r' && s[i + 1] == '\n'
  }

  lemma AtCrlf(s: string, i: int)
    ensures At(s, "\r\n", i) <==> CrlfAt(s, i)
  {
    if 0 <= i && i + 2 <= |s| {
      assert s[i..i + 2] == [s[i], s[i + 1]];
    }
  }

  lemma {:induction false} UnixChanges(s: string)
    ensures |Unix(s)| <= |s|
    ensures Unix(s) == s <==> forall i :: !CrlfAt(s, i)
  {
    if |s| >= 2 && s[0] == '\r' && s[1] == '\n' {
      UnixChanges(s[2..]);
      assert CrlfAt(s, 0);
    } else if s != "" {
      var t := s[1..];
      UnixChanges(t);
      assert forall i :: CrlfAt(t, i) ==> CrlfAt(s, i + 1);
      assert forall i :: CrlfAt(s, i) ==> CrlfAt(t, i - 1);
      assert Unix(s)[1..] == Unix(t);
      assert s == [s[0]] + t;
    }
  }

  /** Normalising changes a text exactly when it holds a CRLF. */
  lemma UnixIdentity(s: string)
    ensures |Unix(s)| <= |s|
    ensures Unix(s) == s <==> !Contains(s, "\r\n")
  {
    UnixChanges(s);
    hide Unix, CrlfAt, At;
    forall i ensures At(s, "\r\n", i) <==> CrlfAt(s, i) { AtCrlf(s, i); }
  }

  /** Normalising replaces every CRLF by one line end; together with the identity elsewhere that is all it does. */
  lemma UnixReplaces(a: string, b: string)
    ensures Unix(a + "\r\n" + b) == Unix(a) + "\n" + Unix(b)
  {
    var c := "\r\n" + b;
    assert c[2..] == b;
    assert Unix(c) == "\n" + Unix(b);
    assert a + "\r\n" + b == a + c;
    UnixConcat(a, c);
  }

  lemma {:induction false} UnixKeepsEnds(s: string)
    ensures s == "" <==> Unix(s) == ""
    ensures s != "" && !IsSpace(s[0]) ==> Unix(s)[0] == s[0]
    ensures s != "" && !IsSpace(s[|s| - 1]) ==> Unix(s)[|Unix(s)| - 1] == s[|s| - 1]
  {
    if |s| >= 2 && s[0] == '\r' && s[1] == '\n' {
      UnixKeepsEnds(s[2..]);
    } else if s != "" {
      UnixKeepsEnds(s[1..]);
    }
  }

  /** What the parser sees of a rendered note. */
  lemma RenderedIsUnix(w: World, note: Note, trust: Trust)
    requires CodecInverts(w) && WellFormed(w, note.metadata, trust) && Trimmed(note.body)
    ensures Unix(Render(w, note)) == "---\n" + w.encode(note.metadata) + "---\n\n" + Unix(note.body) + "\n"
  {
    var e := w.encode(note.metadata);
    hide WellFormed;
    UnixIdentity(e);
    NoReturns("---\n");
    NoReturns("---\n\n");
    NoReturns("\n");
    UnixConcat("---\n", e);
    UnixConcat("---\n" + e, "---\n\n");
    UnixConcat("---\n" + e + "---\n\n", note.body);
    UnixConcat("---\n" + e + "---\n\n" + note.body, "\n");
  }

  lemma {:induction false} NoReturns(s: string)
    requires '\r' !in s
    ensures Unix(s) == s
  {
    if s != "" { NoReturns(s[1..]); }
  }

  /** The header of a rendered note ends where the encoder's last line ends, whatever the body holds. */
  lemma HeaderEnds(e: string, tail: string)
    requires e != "" && e[|e| - 1] == '\n' && !Contains(e, DELIMITER)
    ensures IndexFrom(Rest("---\n", e, tail), DELIMITER, 0) == Some(|e| - 1)
  {
    var s, k := e + "---\n" + tail, |e| - 1;
    IndexIsFirst(s, DELIMITER, 0);
    assert s[k..k + 5] == DELIMITER;
    assert At(s, DELIMITER, k);
    forall i | 0 <= i && At(s, DELIMITER, i) ensures k <= i {
      var d := s[i..i + 5];
      assert d[0] == s[i] && d[1] == s[i + 1] && d[2] == s[i + 2] && d[3] == s[i + 3] && d[4] == s[i + 4];
      assert s == e + ("---\n" + tail);
      AtOfConcat(e, "---\n" + tail, DELIMITER, i);
    }
  }

  /** What holds of every note `BuildAgentNote` returns at clock reading `now`. */
  ghost predicate Accepted(w: World, note: Note, now: int) {
    && WellFormed(w, note.metadata, Working) && note.trust == Working
    && Trimmed(note.body) && note.body != "" && ByteLen(note.body) <= MAX_BODY
    && LinksOf(note.body) == Some(note.links)
    && ByteLen(Render(w, note)) <= MAX_FILE
    && !note.expired && !Expired(w, note.metadata, now)
    && w.instant(note.metadata.updated).value <= now + FUTURE_SLACK
  }

  lemma BuildAccepts(w: World, draft: Draft, existing: Option<Note>, now: int)
    requires Build(w, draft, existing, now).Some?
    ensures Accepted(w, Build(w, draft, existing, now).value, now)
    ensures Build(w, draft, existing, now).value.metadata.slug == TrimSpace(draft.slug)
  {
    hide LinksOf, WellFormed, Render, ByteLen, TrimSpace, Trimmed;
  }

  /**
   A note the agent write path accepts comes back from its own rendering at every clock reading
   that does not put its stamp into the future, and at no other: with the same metadata and links,
   and with CRLF in its body read as LF.
   */
  lemma ParseOfRender(w: World, note: Note, now: int, later: int)
    requires CodecInverts(w) && Accepted(w, note, now)
    ensures Parse(w, Render(w, note), note.metadata.slug, Working, later)
         == if w.instant(note.metadata.updated).value <= later + FUTURE_SLACK
            then Some(note.(body := Unix(note.body), expired := Expired(w, note.metadata, later))) else None
  {
    var body := Unix(note.body);
    UnixKeepsEnds(note.body);
    UnixIsShorter(note.body);
    UnixKeepsLinksOf(note.body);
    hide WellFormed, LinksOf, ByteLen, Render, CodecInverts, Parse, ParseParts, Unix;
    ParseSeparates(w, note, later);
    var e := w.encode(note.metadata);
    PartsRead(w, e[..|e| - 1], note.metadata, body, note.links, later);
  }

  lemma PartsRead(w: World, header: string, m: Metadata, body: string, links: seq<string>, later: int)
    requires w.decode(header) == Some(m) && WellFormed(w, m, Working)
    requires body != "" && ByteLen(body) <= MAX_BODY && LinksOf(body) == Some(links)
    ensures ParseParts(w, header, body, m.slug, Working, later)
         == if w.instant(m.updated).value <= later + FUTURE_SLACK
            then Some(Note(m, body, Working, links, Expired(w, m, later))) else None
  {
    hide LinksOf, ByteLen;
  }

  lemma {:induction false} UnixIsShorter(s: string)
    ensures ByteLen(Unix(s)) <= ByteLen(s)
  {
    if |s| >= 2 && s[0] == '\r' && s[1] == '\n' {
      UnixIsShorter(s[2..]);
      assert s[1..][1..] == s[2..];
      assert Unix(s)[1..] == Unix(s[2..]);
    } else if s != "" {
      UnixIsShorter(s[1..]);
      assert Unix(s)[1..] == Unix(s[1..]);
    }
  }

  // --------------------------------------------------- line ends and links

  /** Normalising line ends opens no link. */
  lemma {:induction false} UnixOpensNothing(s: string)
    requires forall i :: !OpenAt(s, i)
    ensures forall i :: !OpenAt(Unix(s), i)
    ensures Unix(s) != "" && Unix(s)[0] == '[' ==> s[0] == '['
  {
    var u := Unix(s);
    if |s| >= 2 && s[0] == '\r' && s[1] == '\n' {
      var t := s[2..];
      assert forall i :: OpenAt(t, i) ==> OpenAt(s, i + 2);
      UnixOpensNothing(t);
      assert u == "\n" + Unix(t);
      assert forall i :: OpenAt(u, i) ==> OpenAt(Unix(t), i - 1);
    } else if s != "" {
      var t := s[1..];
      assert forall i :: OpenAt(t, i) ==> OpenAt(s, i + 1);
      UnixOpensNothing(t);
      assert u == [s[0]] + Unix(t);
      assert !OpenAt(s, 0);
      assert forall i | i > 0 :: OpenAt(u, i) ==> OpenAt(Unix(t), i - 1);
    }
  }

  /** Normalising line ends breaks no link: a scan that succeeds finds the same targets afterwards. */
  lemma {:induction false} UnixKeepsScan(s: string)
    requires Scan(s).Some?
    ensures Scan(Unix(s)) == Scan(s)
    decreases |s|
  {
    var start := IndexFrom(s, OPEN, 0);
    if start.None? {
      UnixNothingOpens(s);
    } else {
      var open, end := LinkAhead(s);
      UnixKeepsScan(s[end + 2..]);
      hide *;
      var pre, target, rest := s[..open], s[open + 2..end], s[end + 2..];
      ClosedBefore(s, open);
      LinkParts(s, open, end);
      UnixOfLink(pre, target, rest);
      UnixStaysClosed(pre);
      FirstLink(Unix(pre), target, Unix(rest));
    }
  }

  lemma UnixNothingOpens(s: string)
    requires IndexFrom(s, OPEN, 0).None?
    ensures Scan(Unix(s)) == Scan(s) == Some([])
  {
    IndexIsFirst(s, OPEN, 0);
    forall i ensures !OpenAt(s, i) { AtOpen(s, i); }
    UnixOpensNothing(s);
    hide Unix, At, OpenAt, IndexFrom, Scan;
    NothingOpens(s);
    NothingOpens(Unix(s));
  }

  lemma ClosedBefore(s: string, start: nat)
    requires IndexFrom(s, OPEN, 0) == Some(start) && start + 2 <= |s|
    ensures Closed(s[..start]) && At(s, OPEN, start)
  {
    IndexIsFirst(s, OPEN, 0);
    forall i ensures At(s, OPEN, i) <==> OpenAt(s, i) { AtOpen(s, i); }
    hide IndexFrom, At;
    forall i ensures OpenAt(s[..start] + "[", i) ==> OpenAt(s, i) && i < start { BeforeOpening(s, start, i); }
    hide OpenAt;
  }

  lemma BeforeOpening(s: string, start: nat, i: int)
    requires OpenAt(s, start)
    ensures OpenAt(s[..start] + "[", i) ==> OpenAt(s, i) && i < start
  {
    if OpenAt(s[..start] + "[", i) {
      var t := s[..start] + "[";
      assert t[i] == s[i] && t[i + 1] == s[i + 1];
    }
  }

  lemma LinkParts(s: string, start: nat, end: nat)
    requires At(s, OPEN, start) && start + 2 <= |s| && IndexFrom(s, CLOSE, start + 2) == Some(end) && end + 2 <= |s|
    ensures s == s[..start] + OPEN + s[start + 2..end] + CLOSE + s[end + 2..]
  {
    IndexIsFirst(s, CLOSE, start + 2);
    assert s[start..start + 2] == OPEN && s[end..end + 2] == CLOSE;
    hide *;
    Recompose(s, start, start + 2, end, end + 2);
  }

  lemma Recompose(s: string, a: nat, b: nat, c: nat, d: nat)
    requires a <= b <= c <= d <= |s|
    ensures s == s[..a] + s[a..b] + s[b..c] + s[c..d] + s[d..]
  {
  }

  lemma UnixStaysClosed(text: string)
    requires Closed(text)
    ensures Closed(Unix(text))
  {
    UnixOpensNothing(text + "[");
    UnixConcat(text, "[");
    NoReturns("[");
  }

  lemma UnixOfLink(pre: string, target: string, rest: string)
    requires ValidSlug(target)
    ensures Unix(pre + OPEN + target + CLOSE + rest) == Unix(pre) + OPEN + target + CLOSE + Unix(rest)
  {
    assert '\r' !in target && target != "" && target[0] != '\n';
    hide ValidSlug;
    NoReturns(OPEN);
    NoReturns(CLOSE);
    NoReturns(target);
    hide Unix;
    UnixConcat(pre, OPEN);
    UnixConcat(pre + OPEN, target);
    UnixConcat(pre + OPEN + target, CLOSE);
    UnixConcat(pre + OPEN + target + CLOSE, rest);
  }

  lemma UnixKeepsLinksOf(body: string)
    requires LinksOf(body).Some?
    ensures LinksOf(Unix(body)) == LinksOf(body)
  {
    hide Scan, Unix;
    UnixKeepsScan(body);
  }

  /** A scan that succeeds and meets an opening has a valid link ahead. */
  lemma LinkAhead(s: string) returns (start: nat, end: nat)
    requires Scan(s).Some? && IndexFrom(s, OPEN, 0).Some?
    ensures IndexFrom(s, OPEN, 0) == Some(start) && start + 2 <= |s|
    ensures IndexFrom(s, CLOSE, start + 2) == Some(end) && start + 2 <= end && end + 2 <= |s|
    ensures ValidSlug(s[start + 2..end]) && Scan(s[end + 2..]).Some?
    ensures Scan(s) == Some([s[start + 2..end]] + Scan(s[end + 2..]).value)
  {
    assert |OPEN| == 2;
    hide *;
    start := IndexFrom(s, OPEN, 0).value;
    var close := IndexFrom(s, CLOSE, start + 2);
    if close.None? { UnclosedLink(s, start); }
    end := close.value;
    ScanStep(s, start, end);
  }

  /** The parser splits a rendered note into the encoded header and the normalised body. */
  lemma ParseSeparates(w: World, note: Note, later: int)
    requires CodecInverts(w) && WellFormed(w, note.metadata, Working)
    requires Trimmed(note.body) && Trimmed(Unix(note.body)) && ByteLen(Render(w, note)) <= MAX_FILE
    ensures Parse(w, Render(w, note), note.metadata.slug, Working, later)
         == ParseParts(
              w, w.encode(note.metadata)[..|w.encode(note.metadata)| - 1], Unix(note.body), note.metadata.slug,
              Working, later)
    ensures w.encode(note.metadata) != ""
    ensures w.decode(w.encode(note.metadata)[..|w.encode(note.metadata)| - 1]) == Some(note.metadata)
  {
    hide *;
    var e, body := w.encode(note.metadata), Unix(note.body);
    RenderedIsUnix(w, note, Working);
    CodecAt(w, note.metadata, Working);
    SeparateRendered(e, body);
    NotBlank(w, note);
    ParseAs(w, Render(w, note), e[..|e| - 1], body, note.metadata.slug, Working, later);
  }

  lemma NotBlank(w: World, note: Note)
    ensures Render(w, note) != ""
  {
    hide TrimSpace;
  }

  lemma ParseAs(w: World, data: string, header: string, body: string, slug: string, trust: Trust, now: int)
    requires data != "" && ByteLen(data) <= MAX_FILE && Separate(Unix(data)) == Some((header, body))
    ensures Parse(w, data, slug, trust, now) == ParseParts(w, header, body, slug, trust, now)
  {
    hide ByteLen, Separate, Unix, ParseParts;
  }

  lemma CodecAt(w: World, m: Metadata, trust: Trust)
    requires CodecInverts(w) && WellFormed(w, m, trust)
    ensures var e := w.encode(m);
            && e != "" && e[|e| - 1] == '\n'
            && !Contains(e, "\r\n") && !Contains(e, DELIMITER)
            && w.decode(e[..|e| - 1]) == Some(m)
  {
    hide WellFormed;
  }

  lemma SeparateRendered(e: string, body: string)
    requires e != "" && e[|e| - 1] == '\n' && !Contains(e, DELIMITER) && Trimmed(body)
    ensures Separate("---\n" + e + "---\n\n" + body + "\n") == Some((e[..|e| - 1], body))
  {
    assert |DELIMITER| == |"---\n"| + 1;
    HeaderEnds(e, Tail("\n", body));
    TrimAfterNewline(body);
    Regroup("---\n", e, "---\n", "\n", body);
    assert "---\n" + "\n" == "---\n\n";
    hide *;
    SeparatesAt("---\n", DELIMITER, "\n", e, body);
  }

  function Rest(fence: string, e: string, tail: string): string { e + fence + tail }

  function Tail(newline: string, body: string): string { newline + body + newline }

  function Fenced(fence: string, rest: string): string { fence + rest }

  /** Where the first delimiter overlaps the end of the header, header and body come apart. */
  lemma SeparatesAt(fence: string, delimiter: string, newline: string, e: string, body: string)
    requires e != "" && |delimiter| == |fence| + 1 && TrimSpace(body + newline) == body
    requires IndexFrom(Rest(fence, e, Tail(newline, body)), delimiter, 0) == Some(|e| - 1)
    ensures SeparateWith(Fenced(fence, Rest(fence, e, Tail(newline, body))), fence, delimiter, newline)
         == Some((e[..|e| - 1], body))
  {
    hide *;
    var tail := Tail(newline, body);
    var rest := Rest(fence, e, tail);
    Pieces(fence, e, tail, |e| - 1 + |delimiter|);
    DropPrefix(newline, body);
    Prefixed(fence, rest);
    SeparatesInto(
      Fenced(fence, rest), rest, fence, delimiter, newline, |e| - 1, |e| - 1 + |delimiter|, e[..|e| - 1], tail,
      body + newline, body);
  }

  lemma SeparatesInto(
      s: string, rest: string, fence: string, delimiter: string, newline: string,
      end: nat, behind: nat, header: string, tail: string, trimmed: string, body: string)
    requires StartsWith(s, fence) && From(s, |fence|) == rest && IndexFrom(rest, delimiter, 0) == Some(end)
    requires behind == end + |delimiter| && Upto(rest, end) == header && From(rest, behind) == tail
    requires TrimPrefix(tail, newline) == trimmed && TrimSpace(trimmed) == body
    ensures SeparateWith(s, fence, delimiter, newline) == Some((header, body))
  {
    hide StartsWith, From, Upto, IndexFrom, TrimSpace, TrimPrefix;
  }

  lemma Prefixed(fence: string, rest: string)
    ensures StartsWith(Fenced(fence, rest), fence) && From(Fenced(fence, rest), |fence|) == rest
  {
  }

  lemma Pieces(fence: string, e: string, tail: string, n: nat)
    requires e != "" && n == |e| + |fence|
    ensures Upto(Rest(fence, e, tail), |e| - 1) == e[..|e| - 1] && From(Rest(fence, e, tail), n) == tail
  {
  }

  lemma DropPrefix(newline: string, body: string)
    ensures TrimPrefix(Tail(newline, body), newline) == body + newline
  {
    assert newline + body + newline == newline + (body + newline);
  }

  lemma Regroup(o: string, e: string, m: string, n: string, body: string)
    ensures o + e + (m + n) + body + n == Fenced(o, Rest(m, e, Tail(n, body)))
  {
  }

  /** Round trip: body, metadata and links survive exactly when the body holds no CRLF. */
  lemma RoundTrip(w: World, draft: Draft, existing: Option<Note>, now: int)
    requires CodecInverts(w) && Build(w, draft, existing, now).Some?
    ensures var note := Build(w, draft, existing, now).value;
            Parse(w, Render(w, note), note.metadata.slug, Working, now) == Some(note) <==> !Contains(note.body, "\r\n")
  {
    var note := Build(w, draft, existing, now).value;
    BuildAccepts(w, draft, existing, now);
    UnixIdentity(note.body);
    ParseOfRender(w, note, now, now);
    hide Parse, Render, Build, LinksOf, WellFormed, ByteLen, Unix, Contains, CodecInverts;
  }
}
