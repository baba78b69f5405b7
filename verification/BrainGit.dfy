/**
 The private history of the Brain (internal/brain/git.go): one branch, moved by plumbing
 commands of which any may fail.
 */
module BrainGit {
  import opened Text
  import opened Links

  type Tree = map<string, string>

  /** A commit holds a whole tree and at most one parent; its identity is its content. */
  datatype Commit = Commit(tree: Tree, parent: Option<Commit>)

  const IGNORE_FILE := ".gitignore"

  function NotePath(slug: string): string { "working/" + slug + ".md" }

  predicate AllowedPath(path: string) {
    path == IGNORE_FILE || exists n | 0 <= n <= |path| :: SlugOf(path, n)
  }

  /** `path` names a working note whose slug has `n` characters. */
  predicate SlugOf(path: string, n: nat) {
    && |path| == 8 + n + 3
    && path[..8] == "working/" && path[8 + n..] == ".md"
    && ValidSlug(path[8..8 + n])
  }

  lemma NotePathAllowed(slug: string)
    requires ValidSlug(slug)
    ensures AllowedPath(NotePath(slug))
  {
    var p := NotePath(slug);
    assert p[..8] == "working/" && p[8..8 + |slug|] == slug && p[8 + |slug|..] == ".md";
    assert SlugOf(p, |slug|);
  }

  /** The paths a commit may change: the ignore file and the working notes. */
  lemma AllowedPathIff(path: string)
    ensures AllowedPath(path) <==>
            path == ".gitignore" || exists slug :: ValidSlug(slug) && path == "working/" + slug + ".md"
  {
    if n :| 0 <= n <= |path| && SlugOf(path, n) {
      var slug := path[8..8 + n];
      assert path == path[..8] + slug + path[8 + n..];
      assert ValidSlug(slug) && path == "working/" + slug + ".md";
    }
    if slug :| ValidSlug(slug) && path == "working/" + slug + ".md" { NotePathAllowed(slug); }
    hide ValidSlug;
  }

  lemma NotePathInjective(a: string, b: string)
    requires NotePath(a) == NotePath(b)
    ensures a == b
  {
    var p := NotePath(a);
    assert p[8..|p| - 3] == a && NotePath(b)[8..|p| - 3] == b;
  }

  function TreeOf(c: Option<Commit>): Tree {
    if c.None? then map[] else c.value.tree
  }

  /** `tree` is `base` with the file at `p` put in or replaced. */
  ghost predicate DiffersAt(tree: Tree, base: Tree, p: string) {
    p in tree && tree == base[p := tree[p]]
  }

  /** Every commit of the history changes at most one path, and an allowed one. */
  ghost predicate OnePathEach(c: Option<Commit>) {
    c.Some? ==>
      && (exists p :: AllowedPath(p) && DiffersAt(c.value.tree, TreeOf(c.value.parent), p))
      && OnePathEach(c.value.parent)
  }

  /** `base` is part of the history that ends in `c`. */
  predicate Extends(c: Option<Commit>, base: Option<Commit>) {
    c == base || (c.Some? && Extends(c.value.parent, base))
  }

  lemma {:induction false} ExtendsTransitive(a: Option<Commit>, b: Option<Commit>, c: Option<Commit>)
    requires Extends(a, b) && Extends(b, c)
    ensures Extends(a, c)
    decreases a
  {
    if a != b { ExtendsTransitive(a.value.parent, b, c); }
  }

  // ----------------------------------------------------------- the plumbing

  /** How moving the branch ends: the command may report a failure although the branch has moved. */
  datatype RefUpdate = Moved | NotMoved | MovedButFailed

  /** Which of the plumbing commands succeed. */
  datatype Plumbing = Plumbing(
    symbolicRef: bool,
    revParse: bool,
    readTree: bool,
    hashObject: bool,
    updateIndex: bool,
    writeTree: bool,
    commitTree: bool,
    updateRef: RefUpdate,
    reread: bool,
    resetIndex: bool)
  {
    /** The branch has moved, the move was reported as a failure, and the check that would notice failed as well. */
    predicate LosesCommit() {
      updateRef.MovedButFailed? && !reread
    }

    /** Every command takes effect, and a branch update that reports a failure is found out. */
    predicate Works() {
      ReachesUpdate() && (updateRef.Moved? || (updateRef.MovedButFailed? && reread))
    }

    /** All commands before the branch update succeed. */
    predicate ReachesUpdate() {
      symbolicRef && readTree && hashObject && updateIndex && writeTree && commitTree
    }
  }

  class LocalGit {
    var branch: Option<Commit>
    var staged: Tree

    constructor ()
      ensures branch.None? && staged == map[]
    {
      branch, staged := None, map[];
    }

    /** The commit `commitPath` builds: on top of the head it saw, or a root when it saw none. */
    ghost function Next(path: string, content: string, seen: bool): Commit
      reads this
    {
      var head := if seen then branch else None;
      Commit(TreeOf(head)[path := content], head)
    }

    /** `head`: a failing `rev-parse` is read as a branch without commits. */
    method Head(p: Plumbing) returns (ok: bool, head: Option<Commit>)
      ensures ok == p.symbolicRef
      ensures ok ==> head == if p.revParse then branch else None
    {
      if !p.symbolicRef {
        return false, None;
      }
      if !p.revParse || branch.None? {
        return true, None;
      }
      return true, branch;
    }

    /** `commitPath`: records one file on the branch, or reports an error. */
    method CommitPath(path: string, content: string, p: Plumbing) returns (ok: bool)
      modifies this
      ensures var head := if p.revParse then old(branch) else None;
              var commit := Commit(TreeOf(head)[path := content], head);
              var reaches := && AllowedPath(path) && p.symbolicRef && p.readTree && p.hashObject && p.updateIndex
                             && p.writeTree && p.commitTree;
              && (ok <==> reaches && (p.updateRef.Moved? || (p.reread && branch == Some(commit))))
              && branch == (if reaches && !p.updateRef.NotMoved? then Some(commit) else old(branch))
              && (ok ==> branch == Some(commit) && staged == commit.tree)
              && (!ok && AllowedPath(path) && p.symbolicRef && p.resetIndex ==> staged == TreeOf(head))
    {
      if !AllowedPath(path) {
        return false;
      }
      var seen, head := Head(p);
      if !seen {
        return false;
      }
      ok := Record(path, content, head, p);
      if !ok {
        ResetIndex(head, p);
      }
    }

    /** `commitPath` from reading the head's tree to moving the branch. */
    method Record(path: string, content: string, head: Option<Commit>, p: Plumbing) returns (ok: bool)
      requires AllowedPath(path) && p.symbolicRef
      requires head == if p.revParse then branch else None
      modifies this
      ensures ok <==>
              && p.ReachesUpdate()
              && (p.updateRef.Moved? || (p.reread && branch == Some(Commit(TreeOf(head)[path := content], head))))
      ensures branch == if p.ReachesUpdate() && !p.updateRef.NotMoved?
                        then Some(Commit(TreeOf(head)[path := content], head)) else old(branch)
      ensures ok ==> branch == Some(Commit(TreeOf(head)[path := content], head)) && staged == branch.value.tree
    {
      if !p.readTree {
        return false;
      }
      staged := TreeOf(head);
      if !p.hashObject {
        return false;
      }
      if !p.updateIndex {
        return false;
      }
      staged := staged[path := content];
      if !p.writeTree || !p.commitTree {
        return false;
      }
      var commit := Commit(staged, head);
      if !p.updateRef.NotMoved? {
        branch := Some(commit);
      }
      if !p.updateRef.Moved? {
        return p.reread && branch == Some(commit);
      }
      return true;
    }

    method ResetIndex(head: Option<Commit>, p: Plumbing)
      modifies this`staged
      ensures staged == if p.resetIndex then TreeOf(head) else old(staged)
    {
      if p.resetIndex {
        staged := TreeOf(head);
      }
    }
  }

  /** A commit made on top of the head it saw keeps the whole history. */
  lemma NextKeepsHistory(base: Option<Commit>, path: string, content: string)
    requires AllowedPath(path) && OnePathEach(base)
    ensures var c := Some(Commit(TreeOf(base)[path := content], base));
            Extends(c, base) && OnePathEach(c)
  {
    hide AllowedPath;
    var c := Commit(TreeOf(base)[path := content], base);
    assert DiffersAt(c.tree, TreeOf(c.parent), path);
  }

  /** A commit made while the head could not be read drops it: no commit of the old history is left. */
  lemma UnseenHeadLosesHistory(base: Commit, path: string, content: string)
    ensures var c := Some(Commit(map[path := content], None));
            Extends(c, Some(base)) <==> base == c.value
    ensures forall other | other in base.tree && other != path :: other !in map[path := content]
  {
  }
}
