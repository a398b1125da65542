/**
 * The reference graph between the bindings of one scope, and what it means
 * for a binding to be removable because it only sits on a closed reference
 * cycle.
 *
 * Bindings are numbered 0..n-1.  `refs[c]` lists the bindings that are
 * referenced from inside binding `c`'s declaration, so an edge runs from
 * the container `c` to every binding in `refs[c]`.  `excluded[i]` marks a
 * binding that is not a candidate for cycle removal.
 */
module RefGraph {

  datatype Graph = Graph(refs: seq<seq<nat>>, excluded: seq<bool>)

  /** Every edge ends at a binding of the table. */
  predicate RefsInRange(refs: seq<seq<nat>>) {
    forall c, k :: 0 <= c < |refs| && 0 <= k < |refs[c]| ==> refs[c][k] < |refs|
  }

  predicate WellFormed(g: Graph) {
    |g.excluded| == |g.refs| && RefsInRange(g.refs)
  }

  /** No binding is blocked: walks may use every binding of the table. */
  function NoneBlocked(n: nat): (r: seq<bool>)
    ensures |r| == n && forall i :: 0 <= i < n ==> !r[i]
  {
    seq(n, _ => false)
  }

  // ---------------------------------------------------------------------
  // Paths and reachability avoiding the `blocked` bindings
  // ---------------------------------------------------------------------

  /** The binding `x` exists and is not blocked. */
  predicate Open(refs: seq<seq<nat>>, blocked: seq<bool>, x: nat) {
    x < |refs| && x < |blocked| && !blocked[x]
  }

  /** `p` is a non-empty walk along `refs` edges that never visits a blocked binding. */
  predicate IsPath(refs: seq<seq<nat>>, blocked: seq<bool>, p: seq<nat>) {
    && |p| > 0
    && (forall i :: 0 <= i < |p| ==> Open(refs, blocked, p[i]))
    && (forall i :: 0 <= i < |p| - 1 ==> p[i + 1] in refs[p[i]])
  }

  ghost predicate Reach(refs: seq<seq<nat>>, blocked: seq<bool>, u: nat, w: nat) {
    exists p :: IsPath(refs, blocked, p) && p[0] == u && p[|p| - 1] == w
  }

  lemma ReachRefl(refs: seq<seq<nat>>, blocked: seq<bool>, u: nat)
    requires Open(refs, blocked, u)
    ensures Reach(refs, blocked, u, u)
  {
    assert IsPath(refs, blocked, [u]);
  }

  lemma ReachStep(refs: seq<seq<nat>>, blocked: seq<bool>, u: nat, m: nat, w: nat)
    requires Reach(refs, blocked, u, m)
    requires m < |refs| && w in refs[m] && Open(refs, blocked, w)
    ensures Reach(refs, blocked, u, w)
  {
    var p :| IsPath(refs, blocked, p) && p[0] == u && p[|p| - 1] == m;
    var q := p + [w];
    assert IsPath(refs, blocked, q);
  }

  lemma ReachTrans(refs: seq<seq<nat>>, blocked: seq<bool>, u: nat, m: nat, w: nat)
    requires Reach(refs, blocked, u, m) && Reach(refs, blocked, m, w)
    ensures Reach(refs, blocked, u, w)
  {
    var p :| IsPath(refs, blocked, p) && p[0] == u && p[|p| - 1] == m;
    var q :| IsPath(refs, blocked, q) && q[0] == m && q[|q| - 1] == w;
    var r := p + q[1..];
    forall i | 0 <= i < |r| - 1
      ensures r[i + 1] in refs[r[i]]
    {
      if i < |p| - 1 {
      } else {
        assert r[i] == q[i - |p| + 1] && r[i + 1] == q[i - |p| + 2];
      }
    }
    assert IsPath(refs, blocked, r);
  }

  /** Both ends of a walk are open bindings. */
  lemma ReachEnds(refs: seq<seq<nat>>, blocked: seq<bool>, u: nat, w: nat)
    requires Reach(refs, blocked, u, w)
    ensures Open(refs, blocked, u) && Open(refs, blocked, w)
  {
    var p :| IsPath(refs, blocked, p) && p[0] == u && p[|p| - 1] == w;
  }

  /**
   * A walk that starts in `a`, where every edge out of `a` stays in `a` or
   * enters `b`, and every edge out of `b` stays in `b`, never leaves `a + b`.
   */
  lemma {:induction false} PathStaysIn(refs: seq<seq<nat>>, blocked: seq<bool>, a: set<nat>, b: set<nat>, p: seq<nat>, i: nat)
    requires IsPath(refs, blocked, p) && p[0] in a
    requires forall x, y :: x in a && x < |refs| && y in refs[x] && Open(refs, blocked, y) ==> y in a || y in b
    requires forall x, y :: x in b && x < |refs| && y in refs[x] && Open(refs, blocked, y) ==> y in b
    requires i < |p|
    ensures p[i] in a || p[i] in b
  {
    if i > 0 {
      PathStaysIn(refs, blocked, a, b, p, i - 1);
      assert p[i] in refs[p[i - 1]];
    }
  }

  lemma ReachStaysIn(refs: seq<seq<nat>>, blocked: seq<bool>, a: set<nat>, b: set<nat>, u: nat, w: nat)
    requires u in a && Reach(refs, blocked, u, w)
    requires forall x, y :: x in a && x < |refs| && y in refs[x] && Open(refs, blocked, y) ==> y in a || y in b
    requires forall x, y :: x in b && x < |refs| && y in refs[x] && Open(refs, blocked, y) ==> y in b
    ensures w in a || w in b
  {
    var p :| IsPath(refs, blocked, p) && p[0] == u && p[|p| - 1] == w;
    PathStaysIn(refs, blocked, a, b, p, |p| - 1);
  }

  // ---------------------------------------------------------------------
  // The graph induced by the candidates
  // ---------------------------------------------------------------------

  /** An edge between two candidates; edges touching an excluded binding are ignored. */
  predicate Edge(g: Graph, u: nat, w: nat) {
    && |g.excluded| == |g.refs|
    && u < |g.refs| && w < |g.refs|
    && !g.excluded[u] && !g.excluded[w]
    && w in g.refs[u]
  }

  ghost predicate CReach(g: Graph, u: nat, w: nat) {
    |g.excluded| == |g.refs| && Reach(g.refs, g.excluded, u, w)
  }

  /** `u` and `w` lie in the same strongly connected component of the candidate graph. */
  ghost predicate Mutual(g: Graph, u: nat, w: nat) {
    CReach(g, u, w) && CReach(g, w, u)
  }

  lemma CReachRefl(g: Graph, u: nat)
    requires |g.excluded| == |g.refs| && u < |g.refs| && !g.excluded[u]
    ensures CReach(g, u, u)
  {
    ReachRefl(g.refs, g.excluded, u);
  }

  lemma EdgeCReach(g: Graph, u: nat, w: nat)
    requires Edge(g, u, w)
    ensures CReach(g, u, w)
  {
    CReachRefl(g, u);
    ReachStep(g.refs, g.excluded, u, u, w);
  }

  lemma CReachStep(g: Graph, u: nat, m: nat, w: nat)
    requires CReach(g, u, m) && Edge(g, m, w)
    ensures CReach(g, u, w)
  {
    ReachStep(g.refs, g.excluded, u, m, w);
  }

  lemma CReachTrans(g: Graph, u: nat, m: nat, w: nat)
    requires CReach(g, u, m) && CReach(g, m, w)
    ensures CReach(g, u, w)
  {
    ReachTrans(g.refs, g.excluded, u, m, w);
  }

  lemma CReachEnds(g: Graph, u: nat, w: nat)
    requires CReach(g, u, w)
    ensures u < |g.refs| && !g.excluded[u] && w < |g.refs| && !g.excluded[w]
  {
    ReachEnds(g.refs, g.excluded, u, w);
  }

  /** A set of candidates that no edge leaves keeps every walk that starts in it. */
  lemma CReachStaysIn(g: Graph, S: set<nat>, u: nat, w: nat)
    requires u in S && CReach(g, u, w)
    requires forall x, y :: x in S && Edge(g, x, y) ==> y in S
    ensures w in S
  {
    CReachEnds(g, u, w);
    var a := set x | x in S && x < |g.refs| && !g.excluded[x];
    ReachStaysIn(g.refs, g.excluded, a, {}, u, w);
  }

  // ---------------------------------------------------------------------
  // What the cycle engine is meant to return
  // ---------------------------------------------------------------------

  /** `u` shares its component with some other binding. */
  ghost predicate NonTrivial(g: Graph, u: nat) {
    exists w: nat :: w != u && Mutual(g, u, w)
  }

  /** No candidate outside `u`'s component has an edge into it. */
  ghost predicate Closed(g: Graph, u: nat) {
    forall s: nat, d: nat :: Edge(g, s, d) && Mutual(g, d, u) ==> Mutual(g, s, u)
  }

  /**
   * A candidate is removable by the cycle engine when its component has
   * several members and no incoming edge from outside, or when it is alone
   * in its component and references itself.
   */
  ghost predicate Removable(g: Graph, u: nat) {
    && |g.excluded| == |g.refs|
    && u < |g.refs| && !g.excluded[u]
    && if NonTrivial(g, u) then Closed(g, u) else Edge(g, u, u)
  }

  ghost function RemovableSet(g: Graph): set<nat> {
    set u: nat | u < |g.refs| && Removable(g, u)
  }
}
