/**
 The rootfs scanner of scripts/verify-runtime-remediation.py: every file of an image
 is read in chunks and searched for two signatures, carrying the last 64 bytes over
 from one chunk to the next. Bytes are written as characters below 256.
 */
module Scanner {
  import opened Text

  const CARRY: nat := 64
  const VERSION_SIGNATURE := "SQLite version %s"
  const RECOVER_SIGNATURE := ".recover "
  const MAX_ENTRIES: nat := 150000
  const MAX_MEMBER: nat := 1024 * 1024 * 1024
  const MAX_METADATA: nat := 8 * 1024 * 1024
  const WANTED := {"usr/lib/apk/db/installed", "usr/share/aeontra/security/glibc-backport.json"}

  function Join(chunks: seq<string>): string {
    if chunks == [] then "" else Join(chunks[..|chunks| - 1]) + chunks[|chunks| - 1]
  }

  /** Python's `s[-n:]` for positive `n`. */
  function Suffix(s: string, n: nat): string {
    if |s| <= n then s else s[|s| - n..]
  }

  /** A carry of `k` bytes loses no occurrence of a pattern of at most `k + 1` bytes. */
  lemma CarryIsEnough(a: string, b: string, p: string, k: nat)
    requires 0 < |p| <= k + 1
    ensures Contains(a + b, p) <==> Contains(a, p) || Contains(Suffix(a, k) + b, p)
  {
    var kept := Suffix(a, k);
    var dropped := a[..|a| - |kept|];
    assert a == dropped + kept;
    assert a + b == dropped + (kept + b);
    if Contains(a + b, p) {
      var i :| At(a + b, p, i);
      AtOfConcat(a, b, p, i);
      AtOfConcat(dropped, kept + b, p, i);
    }
    if Contains(a, p) {
      var i :| At(a, p, i);
      AtOfConcat(a, b, p, i);
      assert At(a + b, p, i);
    }
    if Contains(kept + b, p) {
      var i :| At(kept + b, p, i);
      AtOfConcat(dropped, kept + b, p, i);
      assert At(a + b, p, i + |dropped|);
    }
  }

  /** And only of those: a longer pattern is missed when it straddles a chunk boundary in its last byte. */
  lemma ShorterCarryLosesMatches(p: string, k: nat)
    requires |p| > k + 1
    ensures var a, b := p[..|p| - 1], p[|p| - 1..];
            Contains(a + b, p) && !Contains(a, p) && !Contains(Suffix(a, k) + b, p)
  {
    var a, b := p[..|p| - 1], p[|p| - 1..];
    assert a + b == p;
    assert At(p, p, 0);
  }

  lemma CarryOfCarry(a: string, b: string, k: nat)
    ensures Suffix(Suffix(a, k) + b, k) == Suffix(a + b, k)
  {
  }

  datatype FileScan = FileScan(version: bool, recover: bool, content: string)

  /**
   The chunk loop. However the file is cut into chunks, each flag says whether its
   signature occurs anywhere in the whole file.
   */
  method ScanChunks(chunks: seq<string>) returns (scan: FileScan)
    ensures scan.version <==> Contains(Join(chunks), "SQLite version %s")
    ensures scan.recover <==> Contains(Join(chunks), ".recover ")
    ensures scan.content == Join(chunks)
  {
    var previous, first, second, body := "", false, false, "";
    for i := 0 to |chunks|
      invariant body == Join(chunks[..i])
      invariant previous == Suffix(body, CARRY)
      invariant first <==> Contains(body, VERSION_SIGNATURE)
      invariant second <==> Contains(body, RECOVER_SIGNATURE)
    {
      var chunk := chunks[i];
      var view := previous + chunk;
      CarryIsEnough(body, chunk, VERSION_SIGNATURE, CARRY);
      CarryIsEnough(body, chunk, RECOVER_SIGNATURE, CARRY);
      CarryOfCarry(body, chunk, CARRY);
      var hasVersion := Find(view, VERSION_SIGNATURE);
      var hasRecover := Find(view, RECOVER_SIGNATURE);
      first := first || hasVersion;
      second := second || hasRecover;
      previous := if |view| <= CARRY then view else view[|view| - CARRY..];
      assert chunks[..i + 1][..i] == chunks[..i];
      body := body + chunk;
    }
    assert chunks[..|chunks|] == chunks;
    scan := FileScan(first, second, body);
  }

  /** Python's `p in s`. */
  method Find(s: string, p: string) returns (found: bool)
    ensures found <==> Contains(s, p)
  {
    var r := IndexFrom(s, p, 0);
    IndexIsFirst(s, p, 0);
    found := r.Some?;
    if !found {
      assert forall i | At(s, p, i) :: 0 <= i;
    }
  }

  // ------------------------------------------------------------- the archive

  /** One member of the exported filesystem, its name already normalised. */
  datatype Member = Member(name: string, size: nat, regular: bool, chunks: seq<string>)

  datatype Verdict =
    | BadMember
    | OverBudget
    | MetadataTooLarge
    | ShellFound
    | Clean(hashes: map<string, string>, captured: map<string, string>)

  predicate Unsafe(name: string) {
    "/" <= name || "../" <= name || name == ".."
  }

  /** The file is the SQLite shell: it is the known binary, or it carries both signatures. */
  ghost predicate IsShell(m: Member, sha256: string -> string, canary: string) {
    && m.regular
    && var content := Join(m.chunks);
    || sha256(content) == canary
    || (Contains(content, VERSION_SIGNATURE) && Contains(content, RECOVER_SIGNATURE))
  }

  ghost predicate WithinBudget(members: seq<Member>) {
    && (forall i | 0 <= i < |members| :: !Unsafe(members[i].name) && members[i].size <= MAX_MEMBER)
    && (forall i, j | 0 <= i < j < |members| :: members[i].name != members[j].name)
    && |members| <= MAX_ENTRIES
    && (forall i | 0 <= i < |members| && members[i].regular && members[i].name in WANTED ::
         |Join(members[i].chunks)| <= MAX_METADATA)
  }

  /** The budget, spelled out: safe and distinct names, few enough members, none too large. */
  lemma BudgetMeans(members: seq<Member>)
    ensures WithinBudget(members) <==>
            && |members| <= 150000
            && (forall i | 0 <= i < |members| ::
                  && members[i].name != ".." && !("/" <= members[i].name) && !("../" <= members[i].name)
                  && members[i].size <= 1073741824)
            && (forall i, j | 0 <= i < j < |members| :: members[i].name != members[j].name)
            && (forall i | 0 <= i < |members| && members[i].regular
                           && (members[i].name == "usr/lib/apk/db/installed"
                               || members[i].name == "usr/share/aeontra/security/glibc-backport.json") ::
                  |Join(members[i].chunks)| <= 8388608)
  {
    hide Join;
  }

  /** The inventory of the regular files among the first members: names, hashes and captured bodies. */
  ghost predicate Inventory(
      members: seq<Member>, sha256: string -> string, hashes: map<string, string>, captured: map<string, string>)
  {
    && hashes.Keys == (set i | 0 <= i < |members| && members[i].regular :: members[i].name)
    && captured.Keys == hashes.Keys * WANTED
    && (forall i | 0 <= i < |members| && members[i].regular ::
          && members[i].name in hashes && hashes[members[i].name] == sha256(Join(members[i].chunks))
          && (members[i].name in captured ==> captured[members[i].name] == Join(members[i].chunks)))
  }

  /** What the `i`-th member must satisfy, given that those before it are within budget. */
  ghost predicate Admissible(members: seq<Member>, i: nat)
    requires i < |members|
  {
    && !Unsafe(members[i].name) && members[i].size <= MAX_MEMBER
    && (forall k | 0 <= k < i :: members[k].name != members[i].name)
    && i < MAX_ENTRIES
    && (members[i].regular && members[i].name in WANTED ==> |Join(members[i].chunks)| <= MAX_METADATA)
  }

  lemma AdmissibleMeans(members: seq<Member>, i: nat)
    requires i < |members|
    ensures Admissible(members, i) <==>
            && !Unsafe(members[i].name) && members[i].size <= MAX_MEMBER
            && members[i].name !in (set k | 0 <= k < i :: members[k].name)
            && i < MAX_ENTRIES
            && (members[i].regular && members[i].name in WANTED ==> |Join(members[i].chunks)| <= MAX_METADATA)
  {
  }

  lemma ShellMeans(m: Member, sha256: string -> string, canary: string)
    ensures IsShell(m, sha256, canary) <==>
            && m.regular
            && (sha256(Join(m.chunks)) == canary
                || (Contains(Join(m.chunks), VERSION_SIGNATURE) && Contains(Join(m.chunks), RECOVER_SIGNATURE)))
  {
  }

  lemma EmptyArchive(members: seq<Member>, sha256: string -> string)
    ensures WithinBudget(members[..0]) && Inventory(members[..0], sha256, map[], map[])
  {
  }

  lemma BudgetOfNext(members: seq<Member>, i: nat)
    requires i < |members|
    ensures WithinBudget(members[..i]) && Admissible(members, i) ==> WithinBudget(members[..i + 1])
    ensures !Admissible(members, i) ==> !WithinBudget(members)
  {
  }

  lemma InventoryOfNext(
      members: seq<Member>, i: nat, sha256: string -> string, hashes: map<string, string>,
      captured: map<string, string>)
    requires i < |members| && Admissible(members, i)
    requires Inventory(members[..i], sha256, hashes, captured)
    ensures !members[i].regular ==> Inventory(members[..i + 1], sha256, hashes, captured)
    ensures members[i].regular ==>
              var m := members[i];
              var content := Join(m.chunks);
              Inventory(members[..i + 1], sha256, hashes[m.name := sha256(content)],
                        if m.name in WANTED then captured[m.name := content] else captured)
  {
    hide Join, Unsafe;
    var before, after := members[..i], members[..i + 1];
    assert after == before + [members[i]];
    var known := set k | 0 <= k < i && before[k].regular :: before[k].name;
    var found := set k | 0 <= k < i + 1 && after[k].regular :: after[k].name;
    assert found == if members[i].regular then known + {members[i].name} else known by {
      forall n | n in known ensures n in found {
        var k :| 0 <= k < i && before[k].regular && before[k].name == n;
        assert after[k] == before[k];
      }
      if members[i].regular { assert after[i].name in found; }
    }
  }

  /** `inspect_archive`: clean exactly when the archive is well formed and no file of it is the shell. */
  method InspectArchive(members: seq<Member>, sha256: string -> string, canary: string) returns (v: Verdict)
    ensures v.Clean? <==> WithinBudget(members) && forall i | 0 <= i < |members| :: !IsShell(members[i], sha256, canary)
    ensures v.Clean? ==> Inventory(members, sha256, v.hashes, v.captured)
    ensures v.ShellFound? <==>
            WithinBudget(members) && exists i :: 0 <= i < |members| && IsShell(members[i], sha256, canary)
  {
    hide WithinBudget, Inventory, IsShell, Admissible, Join;
    assert WithinBudget(members[..0]) && Inventory(members[..0], sha256, map[], map[]) by {
      EmptyArchive(members, sha256);
    }
    var entries: set<string> := {};
    var hashes: map<string, string> := map[];
    var captured: map<string, string> := map[];
    var candidates: seq<string> := [];
    for i := 0 to |members|
      invariant WithinBudget(members[..i])
      invariant Inventory(members[..i], sha256, hashes, captured)
      invariant entries == set k | 0 <= k < i :: members[k].name
      invariant |entries| == i
      invariant candidates == [] <==> forall k | 0 <= k < i :: !IsShell(members[k], sha256, canary)
    {
      var m := members[i];
      BudgetOfNext(members, i);
      AdmissibleMeans(members, i);
      ShellMeans(m, sha256, canary);
      if Unsafe(m.name) || m.name in entries {
        return BadMember;
      }
      entries := entries + {m.name};
      if |entries| > MAX_ENTRIES || m.size > MAX_MEMBER {
        return OverBudget;
      }
      if !m.regular {
        InventoryOfNext(members, i, sha256, hashes, captured);
      } else {
        var scan := ScanChunks(m.chunks);
        if m.name in WANTED && |scan.content| > MAX_METADATA {
          return MetadataTooLarge;
        }
        InventoryOfNext(members, i, sha256, hashes, captured);
        hashes := hashes[m.name := sha256(scan.content)];
        if hashes[m.name] == canary || (scan.version && scan.recover) {
          candidates := candidates + [m.name];
        }
        if m.name in WANTED {
          captured := captured[m.name := scan.content];
        }
      }
    }
    assert members[..|members|] == members;
    if candidates != [] {
      return ShellFound;
    }
    return Clean(hashes, captured);
  }
}
