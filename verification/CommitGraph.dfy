/**
 Commits as Git has them: a commit is its content and its parents, so the graph has no cycles
 and a commit's history never changes.
 */
module CommitGraph {
  datatype Commit = Commit(content: string, parents: seq<Commit>)

  /** The commits reachable from `c`, with `c` itself. */
  function Reach(c: Commit): (r: set<Commit>)
    ensures c in r
    decreases c
  {
    {c} + ReachAny(c.parents)
  }

  function ReachAny(cs: seq<Commit>): set<Commit>
    decreases cs
  {
    if cs == [] then {} else Reach(cs[0]) + ReachAny(cs[1..])
  }

  /** Reachability is transitive. */
  lemma {:induction false} ReachTransitive(a: Commit, b: Commit)
    requires a in Reach(b)
    ensures Reach(a) <= Reach(b)
    decreases b
  {
    if a != b { ReachAnyTransitive(a, b.parents); }
  }

  lemma {:induction false} ReachAnyTransitive(a: Commit, cs: seq<Commit>)
    requires a in ReachAny(cs)
    ensures Reach(a) <= ReachAny(cs)
    decreases cs
  {
    if a in Reach(cs[0]) { ReachTransitive(a, cs[0]); }
    else { ReachAnyTransitive(a, cs[1..]); }
  }

  /** The number of commits that `from` has and `to` has not: one side of `rev-list --left-right --count`. */
  function Surplus(from: Commit, to: Commit): nat {
    |Reach(from) - Reach(to)|
  }

  /** A side counts nothing exactly when its commit is an ancestor of the other, or the same. */
  lemma NoSurplus(from: Commit, to: Commit)
    ensures Surplus(from, to) == 0 <==> from in Reach(to)
  {
    if from in Reach(to) {
      ReachTransitive(from, to);
      assert Reach(from) - Reach(to) == {};
    } else {
      assert from in Reach(from) - Reach(to);
    }
  }

  /** Two commits that can reach each other are one. */
  lemma {:induction false} ReachAntisymmetric(a: Commit, b: Commit)
    requires a in Reach(b) && b in Reach(a)
    ensures a == b
  {
    if a != b {
      Deeper(b, a.parents);
      Deeper(a, b.parents);
    }
  }

  /** Both sides count nothing exactly when the commits are one. */
  lemma EvenIsSame(a: Commit, b: Commit)
    ensures Surplus(a, b) == 0 && Surplus(b, a) == 0 <==> a == b
  {
    NoSurplus(a, b);
    NoSurplus(b, a);
    if a in Reach(b) && b in Reach(a) { ReachAntisymmetric(a, b); }
  }

  function Depth(c: Commit): nat
    decreases c
  {
    1 + DepthAny(c.parents)
  }

  function DepthAny(cs: seq<Commit>): nat
    decreases cs
  {
    if cs == [] then 0
    else var d, e := Depth(cs[0]), DepthAny(cs[1..]); if d < e then e else d
  }

  lemma {:induction false} Deeper(a: Commit, cs: seq<Commit>)
    requires a in ReachAny(cs)
    ensures Depth(a) <= DepthAny(cs)
    decreases cs
  {
    if a in Reach(cs[0]) {
      if a != cs[0] { Deeper(a, cs[0].parents); }
    } else {
      Deeper(a, cs[1..]);
    }
  }
}
