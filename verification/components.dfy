/**
 * What `findRemovableBindings` does with the components once Tarjan's
 * search is over: mark every component that a candidate outside it has an
 * edge into (`hasIncoming`), then keep self-referencing singletons and
 * the multi-member components nobody enters.  The lemmas here show that
 * this selection is exactly `RemovableSet`.
 */
module Components {
  import opened RefGraph
  import opened TarjanSpec

  /** The search is over: every candidate has a component. */
  ghost predicate AllDone(g: Graph, s: State) {
    && Inv(g, s, [])
    && forall u :: 0 <= u < |g.refs| && !g.excluded[u] ==> s.sccId[u] >= 0
  }

  /** Some candidate outside component `c` has an edge into it. */
  ghost predicate Incoming(g: Graph, id: seq<int>, c: int)
    requires |id| == |g.refs|
  {
    exists src: nat, dst: nat {:trigger Edge(g, src, dst)} :: Edge(g, src, dst) && id[dst] == c && id[src] != c
  }

  /**
   * The same, for the edges the marking loop has looked at so far: those
   * out of the bindings before `src`, and the first `k` out of `src`.
   */
  ghost predicate IncomingSeen(g: Graph, id: seq<int>, c: int, src: nat, k: nat)
    requires |id| == |g.refs|
  {
    exists x: nat, y: nat {:trigger Edge(g, x, y)} ::
      && Edge(g, x, y) && id[y] == c && id[x] != c
      && (x < src || (x == src && src < |g.refs| && k <= |g.refs[src]| && y in g.refs[src][..k]))
  }

  lemma SeenNone(g: Graph, id: seq<int>, c: int)
    requires |id| == |g.refs|
    ensures !IncomingSeen(g, id, c, 0, 0)
  {
  }

  lemma SeenAll(g: Graph, id: seq<int>, c: int)
    requires |id| == |g.refs|
    ensures IncomingSeen(g, id, c, |g.refs|, 0) <==> Incoming(g, id, c)
  {
    if Incoming(g, id, c) {
      var x: nat, y: nat :| Edge(g, x, y) && id[y] == c && id[x] != c;
      assert x < |g.refs|;
    }
  }

  /** Looking at the edge `src -> refs[src][k]`. */
  lemma {:induction false} SeenStep(g: Graph, id: seq<int>, c: int, src: nat, k: nat)
    requires |id| == |g.refs| && |g.excluded| == |g.refs| && src < |g.refs| && k < |g.refs[src]|
    ensures IncomingSeen(g, id, c, src, k + 1) <==>
      IncomingSeen(g, id, c, src, k) || (Edge(g, src, g.refs[src][k]) && id[g.refs[src][k]] == c && id[src] != c)
  {
    var d := g.refs[src][k];
    assert g.refs[src][..k + 1] == g.refs[src][..k] + [d];
    if IncomingSeen(g, id, c, src, k + 1) {
      var x: nat, y: nat :| && Edge(g, x, y) && id[y] == c && id[x] != c
        && (x < src || (x == src && y in g.refs[src][..k + 1]));
      if x == src && y !in g.refs[src][..k] {
        assert y == d;
      }
    }
    if Edge(g, src, d) && id[d] == c && id[src] != c {
      assert d in g.refs[src][..k + 1];
    }
  }

  /** Moving on to the next binding once every edge out of `src` has been seen. */
  lemma SeenNext(g: Graph, id: seq<int>, c: int, src: nat)
    requires |id| == |g.refs| && src < |g.refs|
    ensures IncomingSeen(g, id, c, src + 1, 0) <==> IncomingSeen(g, id, c, src, |g.refs[src]|)
  {
    assert g.refs[src][..|g.refs[src]|] == g.refs[src];
  }

  /** An excluded binding has no edge out, so skipping it sees nothing new. */
  lemma SeenSkip(g: Graph, id: seq<int>, c: int, src: nat)
    requires |id| == |g.refs| && |g.excluded| == |g.refs| && src < |g.refs| && g.excluded[src]
    ensures IncomingSeen(g, id, c, src + 1, 0) <==> IncomingSeen(g, id, c, src, 0)
  {
    if IncomingSeen(g, id, c, src + 1, 0) {
      var x: nat, y: nat :| Edge(g, x, y) && id[y] == c && id[x] != c && x < src + 1;
      assert x != src;
    }
  }

  /**
   * The selection the collecting loop makes for a finished binding `u`:
   * alone in its component, it is kept when it references itself;
   * otherwise it is kept when its component has no incoming edge.
   */
  ghost predicate Picked(g: Graph, s: State, hasIncoming: seq<bool>, u: nat)
    requires Sized(g, s) && u < |g.refs|
  {
    && 0 <= s.sccId[u] < |s.sccs| && s.sccId[u] < |hasIncoming|
    && if |s.sccs[s.sccId[u]]| == 1 then u in g.refs[u] else !hasIncoming[s.sccId[u]]
  }

  /** Component `c` holds exactly the bindings whose id is `c`, and they are candidates. */
  lemma Members(g: Graph, s: State, c: nat)
    requires Inv(g, s, []) && c < |s.sccs|
    ensures (set u: nat | u in s.sccs[c]) == (set u: nat | u < |g.refs| && s.sccId[u] == c)
    ensures forall u :: u in s.sccs[c] ==> u < |g.refs| && !g.excluded[u]
  {
    forall u | u in s.sccs[c]
      ensures u < |g.refs| && s.sccId[u] == c && !g.excluded[u]
    {
      var i :| 0 <= i < |s.sccs[c]| && s.sccs[c][i] == u;
    }
  }

  /** Finished components are strongly connected components: same id iff mutually reachable. */
  lemma SameComponent(g: Graph, s: State, u: nat, w: nat)
    requires AllDone(g, s) && u < |g.refs| && !g.excluded[u]
    ensures w < |g.refs| && !g.excluded[w] && s.sccId[w] == s.sccId[u] ==> Mutual(g, u, w)
    ensures Mutual(g, u, w) ==> w < |g.refs| && !g.excluded[w] && s.sccId[w] == s.sccId[u]
  {
    if Mutual(g, u, w) {
      CReachEnds(g, u, w);
    }
  }

  /** A binding shares its component with another one iff that component lists several bindings. */
  lemma NonTrivialBySize(g: Graph, s: State, u: nat)
    requires AllDone(g, s) && u < |g.refs| && !g.excluded[u]
    ensures 0 <= s.sccId[u] < |s.sccs|
    ensures NonTrivial(g, u) <==> |s.sccs[s.sccId[u]]| > 1
  {
    var c := s.sccId[u];
    var comp := s.sccs[c];
    Members(g, s, c);
    assert u in (set x: nat | x < |g.refs| && s.sccId[x] == c);
    assert u in comp;
    if NonTrivial(g, u) {
      var w: nat :| w != u && Mutual(g, u, w);
      SameComponent(g, s, u, w);
      assert w in (set x: nat | x < |g.refs| && s.sccId[x] == c);
      assert w in comp;
    }
    if |comp| > 1 {
      var w := if comp[0] == u then comp[1] else comp[0];
      assert w in comp && w != u;
      assert w in (set x: nat | x in comp);
      SameComponent(g, s, u, w);
    }
  }

  /** A multi-member component is closed iff no candidate outside it has an edge into it. */
  lemma ClosedByIncoming(g: Graph, s: State, u: nat)
    requires AllDone(g, s) && u < |g.refs| && !g.excluded[u]
    ensures Closed(g, u) <==> !Incoming(g, s.sccId, s.sccId[u])
  {
    var c := s.sccId[u];
    if Incoming(g, s.sccId, c) {
      var x: nat, y: nat :| Edge(g, x, y) && s.sccId[y] == c && s.sccId[x] != c;
      SameComponent(g, s, u, y);
      SameComponent(g, s, u, x);
      assert Mutual(g, y, u) && !Mutual(g, x, u);
    }
    if !Incoming(g, s.sccId, c) {
      forall x: nat, y: nat | Edge(g, x, y) && Mutual(g, y, u)
        ensures Mutual(g, x, u)
      {
        SameComponent(g, s, u, y);
        SameComponent(g, s, u, x);
      }
    }
  }

  /** The collecting loop selects exactly the removable bindings. */
  lemma PickedIsRemovable(g: Graph, s: State, hasIncoming: seq<bool>)
    requires AllDone(g, s) && |hasIncoming| == |s.sccs|
    requires forall c :: 0 <= c < |s.sccs| ==> (hasIncoming[c] <==> Incoming(g, s.sccId, c))
    ensures forall u :: 0 <= u < |g.refs| ==> (!g.excluded[u] && Picked(g, s, hasIncoming, u) <==> Removable(g, u))
  {
    forall u | 0 <= u < |g.refs|
      ensures !g.excluded[u] && Picked(g, s, hasIncoming, u) <==> Removable(g, u)
    {
      if !g.excluded[u] {
        NonTrivialBySize(g, s, u);
        ClosedByIncoming(g, s, u);
      }
    }
  }

  /** The bindings the collecting loop has kept once it has looked at the components before `c`. */
  ghost function PickedBelow(g: Graph, s: State, hasIncoming: seq<bool>, c: nat): set<nat>
    requires Sized(g, s)
  {
    set u: nat | u < |g.refs| && !g.excluded[u] && s.sccId[u] < c && Picked(g, s, hasIncoming, u)
  }

  /** What looking at component `c` adds: its one member when that references itself, or all its members. */
  lemma {:induction false} PickedStep(g: Graph, s: State, hasIncoming: seq<bool>, c: nat)
    requires Inv(g, s, []) && |hasIncoming| == |s.sccs| && c < |s.sccs|
    ensures |s.sccs[c]| == 1 ==> s.sccs[c][0] < |g.refs|
    ensures PickedBelow(g, s, hasIncoming, c + 1) ==
      PickedBelow(g, s, hasIncoming, c) +
      if |s.sccs[c]| == 1 then (if s.sccs[c][0] in g.refs[s.sccs[c][0]] then {s.sccs[c][0]} else {})
      else if !hasIncoming[c] then (set u: nat | u in s.sccs[c])
      else {}
  {
    var comp := s.sccs[c];
    Members(g, s, c);
    var added := set u: nat | u < |g.refs| && !g.excluded[u] && s.sccId[u] == c && Picked(g, s, hasIncoming, u);
    assert PickedBelow(g, s, hasIncoming, c + 1) == PickedBelow(g, s, hasIncoming, c) + added;
    if |comp| == 1 {
      assert comp[0] in comp;
      forall u | u in added
        ensures u == comp[0]
      {
        assert u in (set x: nat | x < |g.refs| && s.sccId[x] == c);
      }
    } else if !hasIncoming[c] {
      forall u | u in comp
        ensures u in added
      {
        assert u in (set x: nat | x in comp);
      }
      forall u | u in added
        ensures u in comp
      {
        assert u in (set x: nat | x < |g.refs| && s.sccId[x] == c);
      }
    }
  }
}
