/**
 * The hand-written case tables `findRemovableBindings` uses instead of
 * Tarjan's search when at most three candidates are left (lines 85-162 of
 * src/find-removable-bindings.ts), and how they compare with the
 * component-based selection `RemovableSet`.
 *
 * For one and two candidates the tables select exactly `RemovableSet`.
 * For three they do so on the shapes the table is written for (a
 * directed triangle, an isolated pair, no cross references), but not in
 * general: a three-member component without a directed triangle is
 * missed, and a self-referencing member of a pair that the third
 * candidate enters is selected.
 */
module Shortcuts {
  import opened RefGraph

  /**
   * The case tables.  `cands` lists the candidates in index order;
   * `y in refs[x]` is `refs[x]?.includes(y)`, an absent edge list
   * being the empty one.
   */
  function SmallCase(refs: seq<seq<nat>>, cands: seq<nat>): (r: set<nat>)
    requires 1 <= |cands| <= 3 && forall i :: 0 <= i < |cands| ==> cands[i] < |refs|
    ensures forall u :: u in r ==> u in cands
  {
    if |cands| == 1 then
      var a := cands[0];
      if a in refs[a] then {a} else {}
    else if |cands| == 2 then
      var a, b := cands[0], cands[1];
      if b in refs[a] && a in refs[b] then {a, b}
      else (if a in refs[a] then {a} else {}) + (if b in refs[b] then {b} else {})
    else
      var a, b, c := cands[0], cands[1], cands[2];
      var ab, ac := b in refs[a], c in refs[a];
      var ba, bc := a in refs[b], c in refs[b];
      var ca, cb := a in refs[c], b in refs[c];
      if (ab && bc && ca) || (ac && cb && ba) then {a, b, c}
      else
        (if ab && ba && !ca && !cb then {a, b} else {})
        + (if ac && ca && !ba && !bc then {a, c} else {})
        + (if bc && cb && !ab && !ac then {b, c} else {})
        + (if a in refs[a] then {a} else {})
        + (if b in refs[b] then {b} else {})
        + (if c in refs[c] then {c} else {})
  }

  /** `cands` lists exactly the candidates of `g`. */
  predicate ListsCandidates(g: Graph, cands: seq<nat>) {
    && WellFormed(g)
    && (forall i :: 0 <= i < |cands| ==> cands[i] < |g.refs| && !g.excluded[cands[i]])
    && (forall u :: 0 <= u < |g.refs| && !g.excluded[u] ==> u in cands)
  }

  /** With no other candidate mutually reachable from `u`, it is removable iff it references itself. */
  lemma AloneRemovable(g: Graph, u: nat)
    requires WellFormed(g) && u < |g.refs| && !g.excluded[u] && !NonTrivial(g, u)
    ensures Removable(g, u) <==> u in g.refs[u]
  {
  }

  /** Excluded bindings and bindings outside the table are never removable. */
  lemma OnlyCandidatesRemovable(g: Graph, cands: seq<nat>)
    requires ListsCandidates(g, cands)
    ensures forall u :: u in RemovableSet(g) ==> u in cands
  {
  }

  /** When every candidate reaches every other, all of them are removable. */
  lemma AllMutualRemovable(g: Graph, cands: seq<nat>)
    requires ListsCandidates(g, cands) && |cands| >= 2
    requires forall p, q :: 0 <= p < q < |cands| ==> cands[p] < cands[q]
    requires forall i, j :: 0 <= i < |cands| && 0 <= j < |cands| ==> Mutual(g, cands[i], cands[j])
    ensures forall u :: u in cands ==> u in RemovableSet(g)
  {
    forall u | u in cands
      ensures Removable(g, u)
    {
      var i :| 0 <= i < |cands| && cands[i] == u;
      var j := if i == 0 then 1 else 0;
      SortedDistinct(cands, i, j);
      assert Mutual(g, u, cands[j]);
      forall s: nat, d: nat | Edge(g, s, d) && Mutual(g, d, u)
        ensures Mutual(g, s, u)
      {
        var k :| 0 <= k < |cands| && cands[k] == s;
      }
    }
  }

  /** Candidates listed in index order are distinct. */
  lemma SortedDistinct(cands: seq<nat>, i: nat, j: nat)
    requires forall p, q :: 0 <= p < q < |cands| ==> cands[p] < cands[q]
    requires i < |cands| && j < |cands| && i != j
    ensures cands[i] != cands[j]
  {
    if i > j {
      SortedDistinct(cands, j, i);
    }
  }

  /** One candidate: it is removable iff it references itself. */
  lemma {:induction false} OneCandidateAgrees(g: Graph, cands: seq<nat>)
    requires ListsCandidates(g, cands) && |cands| == 1
    ensures SmallCase(g.refs, cands) == RemovableSet(g)
  {
    var a := cands[0];
    assert !NonTrivial(g, a) by {
      if NonTrivial(g, a) {
        var w: nat :| w != a && Mutual(g, a, w);
        CReachEnds(g, a, w);
      }
    }
    AloneRemovable(g, a);
    OnlyCandidatesRemovable(g, cands);
  }

  /** Two candidates that reference each other are both removable. */
  lemma TwoMutual(g: Graph, cands: seq<nat>)
    requires ListsCandidates(g, cands) && |cands| == 2 && cands[0] < cands[1]
    requires cands[1] in g.refs[cands[0]] && cands[0] in g.refs[cands[1]]
    ensures RemovableSet(g) == {cands[0], cands[1]}
  {
    var a, b := cands[0], cands[1];
    EdgeCReach(g, a, b);
    EdgeCReach(g, b, a);
    CReachRefl(g, a);
    CReachRefl(g, b);
    AllMutualRemovable(g, cands);
    OnlyCandidatesRemovable(g, cands);
  }

  /** Two candidates, one of which does not reference the other: neither has a companion. */
  lemma TwoApart(g: Graph, cands: seq<nat>)
    requires ListsCandidates(g, cands) && |cands| == 2 && cands[0] < cands[1]
    requires !(cands[1] in g.refs[cands[0]] && cands[0] in g.refs[cands[1]])
    ensures !NonTrivial(g, cands[0]) && !NonTrivial(g, cands[1])
  {
    var a, b := cands[0], cands[1];
    forall u, w: nat | u in cands && w != u && Mutual(g, u, w)
      ensures false
    {
      CReachEnds(g, u, w);
      if b !in g.refs[a] {
        OnlyOwnEdge(g, cands, a, b);
        if u == a { CReachStaysIn(g, {a}, a, b); } else { CReachStaysIn(g, {a}, a, u); }
      } else {
        OnlyOwnEdge(g, cands, b, a);
        if u == b { CReachStaysIn(g, {b}, b, a); } else { CReachStaysIn(g, {b}, b, u); }
      }
    }
  }

  /**
   * Two candidates: both when each references the other, otherwise the
   * self-referencing ones.
   */
  lemma {:induction false} TwoCandidatesAgree(g: Graph, cands: seq<nat>)
    requires ListsCandidates(g, cands) && |cands| == 2 && cands[0] < cands[1]
    ensures SmallCase(g.refs, cands) == RemovableSet(g)
  {
    var a, b := cands[0], cands[1];
    if b in g.refs[a] && a in g.refs[b] {
      TwoMutual(g, cands);
    } else {
      TwoApart(g, cands);
      AloneRemovable(g, a);
      AloneRemovable(g, b);
      OnlyCandidatesRemovable(g, cands);
      assert SmallCase(g.refs, cands) == (if a in g.refs[a] then {a} else {}) + (if b in g.refs[b] then {b} else {});
    }
  }

  /** Of two candidates, one that does not reference the other has edges only to itself. */
  lemma OnlyOwnEdge(g: Graph, cands: seq<nat>, x: nat, y: nat)
    requires ListsCandidates(g, cands) && |cands| == 2 && cands[0] < cands[1]
    requires (x == cands[0] && y == cands[1]) || (x == cands[1] && y == cands[0])
    requires y !in g.refs[x]
    ensures forall p, q :: p in {x} && Edge(g, p, q) ==> q in {x}
  {
    forall p, q | p in {x} && Edge(g, p, q)
      ensures q in {x}
    {
      assert q in cands;
    }
  }

  /** Three candidates on a directed triangle are all removable, and the tables say so. */
  lemma {:induction false} TriangleAgrees(g: Graph, cands: seq<nat>)
    requires ListsCandidates(g, cands) && |cands| == 3 && cands[0] < cands[1] < cands[2]
    requires var a, b, c := cands[0], cands[1], cands[2];
      (b in g.refs[a] && c in g.refs[b] && a in g.refs[c]) || (c in g.refs[a] && b in g.refs[c] && a in g.refs[b])
    ensures SmallCase(g.refs, cands) == RemovableSet(g) == {cands[0], cands[1], cands[2]}
  {
    var a, b, c := cands[0], cands[1], cands[2];
    if b in g.refs[a] && c in g.refs[b] && a in g.refs[c] {
      TriangleMutual(g, a, b, c);
    } else {
      TriangleMutual(g, a, c, b);
    }
    ThreeMutual(g, cands);
    AllMutualRemovable(g, cands);
    OnlyCandidatesRemovable(g, cands);
  }

  /** Three bindings pairwise in one component: every one is mutual with every one. */
  lemma ThreeMutual(g: Graph, cands: seq<nat>)
    requires |cands| == 3
    requires Mutual(g, cands[0], cands[0]) && Mutual(g, cands[1], cands[1]) && Mutual(g, cands[2], cands[2])
    requires Mutual(g, cands[0], cands[1]) && Mutual(g, cands[1], cands[2]) && Mutual(g, cands[0], cands[2])
    ensures forall i, j :: 0 <= i < 3 && 0 <= j < 3 ==> Mutual(g, cands[i], cands[j])
  {
  }

  /** Around a directed triangle every corner reaches every corner. */
  lemma TriangleMutual(g: Graph, a: nat, x: nat, y: nat)
    requires Edge(g, a, x) && Edge(g, x, y) && Edge(g, y, a)
    ensures Mutual(g, a, a) && Mutual(g, x, x) && Mutual(g, y, y)
    ensures Mutual(g, a, x) && Mutual(g, x, y) && Mutual(g, y, a)
    ensures Mutual(g, x, a) && Mutual(g, y, x) && Mutual(g, a, y)
  {
    EdgeCReach(g, a, x);
    EdgeCReach(g, x, y);
    EdgeCReach(g, y, a);
    CReachTrans(g, a, x, y);
    CReachTrans(g, x, y, a);
    CReachTrans(g, y, a, x);
    CReachRefl(g, a);
    CReachRefl(g, x);
    CReachRefl(g, y);
  }

  /** `x` and `y` reference each other and `z` references neither of them. */
  predicate IsolatedPair(refs: seq<seq<nat>>, x: nat, y: nat, z: nat)
    requires x < |refs| && y < |refs| && z < |refs|
  {
    y in refs[x] && x in refs[y] && x !in refs[z] && y !in refs[z]
  }

  /** No candidate references another one. */
  predicate NoCrossEdges(refs: seq<seq<nat>>, cands: seq<nat>)
    requires forall i :: 0 <= i < |cands| ==> cands[i] < |refs|
  {
    forall i, j :: 0 <= i < |cands| && 0 <= j < |cands| && i != j ==> cands[j] !in refs[cands[i]]
  }

  /**
   * The three-candidate shapes the table is written for: a directed
   * triangle, a mutual pair the third candidate does not reference, or
   * no reference between distinct candidates at all.
   */
  predicate TableShape(refs: seq<seq<nat>>, cands: seq<nat>) {
    && |cands| == 3
    && (forall i :: 0 <= i < |cands| ==> cands[i] < |refs|)
    && var a, b, c := cands[0], cands[1], cands[2];
      || (b in refs[a] && c in refs[b] && a in refs[c])
      || (c in refs[a] && b in refs[c] && a in refs[b])
      || IsolatedPair(refs, a, b, c) || IsolatedPair(refs, a, c, b) || IsolatedPair(refs, b, c, a)
      || NoCrossEdges(refs, cands)
  }

  /** A candidate whose only references among the candidates are to itself has no companion. */
  lemma OnlySelfEdges(g: Graph, u: nat)
    requires WellFormed(g) && u < |g.refs| && !g.excluded[u]
    requires forall q :: Edge(g, u, q) ==> q == u
    ensures !NonTrivial(g, u)
  {
    forall w: nat | w != u && Mutual(g, u, w)
      ensures false
    {
      CReachStaysIn(g, {u}, u, w);
    }
  }

  /** The table on an isolated pair: the pair, and the third candidate if it references itself. */
  lemma IsolatedPairTable(g: Graph, cands: seq<nat>, x: nat, y: nat, z: nat)
    requires ListsCandidates(g, cands) && |cands| == 3 && cands[0] < cands[1] < cands[2]
    requires x in cands && y in cands && z in cands && x != y && x != z && y != z
    requires IsolatedPair(g.refs, x, y, z)
    ensures SmallCase(g.refs, cands) == {x, y} + (if z in g.refs[z] then {z} else {})
  {
    var a, b, c := cands[0], cands[1], cands[2];
    if z == a {
      assert {x, y} == {b, c};
    } else if z == b {
      assert {x, y} == {a, c};
    } else {
      assert {x, y} == {a, b};
    }
  }

  /** The components of an isolated pair: the pair is closed, and the third candidate is alone. */
  lemma IsolatedPairComponents(g: Graph, cands: seq<nat>, x: nat, y: nat, z: nat)
    requires ListsCandidates(g, cands) && |cands| == 3
    requires x in cands && y in cands && z in cands && x != y && x != z && y != z
    requires IsolatedPair(g.refs, x, y, z)
    ensures RemovableSet(g) == {x, y} + (if z in g.refs[z] then {z} else {})
  {
    assert forall u :: u in cands ==> u == x || u == y || u == z;
    OnlySelfEdges(g, z);
    AloneRemovable(g, z);
    EdgeCReach(g, x, y);
    EdgeCReach(g, y, x);
    CReachRefl(g, x);
    CReachRefl(g, y);
    forall u | u == x || u == y
      ensures Removable(g, u)
    {
      assert Mutual(g, x, y) && Mutual(g, y, x);
      forall s: nat, d: nat | Edge(g, s, d) && Mutual(g, d, u)
        ensures Mutual(g, s, u)
      {
        assert s in cands;
      }
    }
    OnlyCandidatesRemovable(g, cands);
  }

  /**
   * Three candidates, two referencing each other and the third
   * referencing neither: the table and the components agree.
   */
  lemma {:induction false} IsolatedPairAgrees(g: Graph, cands: seq<nat>, x: nat, y: nat, z: nat)
    requires ListsCandidates(g, cands) && |cands| == 3 && cands[0] < cands[1] < cands[2]
    requires x in cands && y in cands && z in cands && x != y && x != z && y != z
    requires IsolatedPair(g.refs, x, y, z)
    ensures SmallCase(g.refs, cands) == RemovableSet(g) == {x, y} + (if z in g.refs[z] then {z} else {})
  {
    IsolatedPairTable(g, cands, x, y, z);
    IsolatedPairComponents(g, cands, x, y, z);
  }

  /**
   * Three candidates none of which references another: both sides select
   * exactly the self-referencing ones.
   */
  lemma {:induction false} SelfLoopsAgree(g: Graph, cands: seq<nat>)
    requires ListsCandidates(g, cands) && |cands| == 3 && cands[0] < cands[1] < cands[2]
    requires NoCrossEdges(g.refs, cands)
    ensures SmallCase(g.refs, cands) == RemovableSet(g)
    ensures forall u :: u in RemovableSet(g) <==> u in cands && u in g.refs[u]
  {
    forall i | 0 <= i < 3
      ensures Removable(g, cands[i]) <==> cands[i] in g.refs[cands[i]]
    {
      var u := cands[i];
      forall q | Edge(g, u, q)
        ensures q == u
      {
        var j :| 0 <= j < 3 && cands[j] == q;
        assert cands[j] in g.refs[cands[i]];
      }
      OnlySelfEdges(g, u);
      AloneRemovable(g, u);
    }
    OnlyCandidatesRemovable(g, cands);
    assert NoCrossEdges(g.refs, cands);
    var r := g.refs;
    var a, b, c := cands[0], cands[1], cands[2];
    assert b !in r[a] && c !in r[a] && a !in r[b] && c !in r[b] && a !in r[c] && b !in r[c];
  }

  /** In every shape the table is written for, the table and the components agree. */
  lemma {:induction false} ThreeCandidatesAgree(g: Graph, cands: seq<nat>)
    requires ListsCandidates(g, cands) && |cands| == 3 && cands[0] < cands[1] < cands[2]
    requires TableShape(g.refs, cands)
    ensures SmallCase(g.refs, cands) == RemovableSet(g)
  {
    var r := g.refs;
    var a, b, c := cands[0], cands[1], cands[2];
    if (b in r[a] && c in r[b] && a in r[c]) || (c in r[a] && b in r[c] && a in r[b]) {
      TriangleAgrees(g, cands);
    } else if IsolatedPair(r, a, b, c) {
      IsolatedPairAgrees(g, cands, a, b, c);
    } else if IsolatedPair(r, a, c, b) {
      IsolatedPairAgrees(g, cands, a, c, b);
    } else if IsolatedPair(r, b, c, a) {
      IsolatedPairAgrees(g, cands, b, c, a);
    } else {
      SelfLoopsAgree(g, cands);
    }
  }

  // ---------------------------------------------------------------------
  // Where the three-candidate table departs from the components
  // ---------------------------------------------------------------------

  /** Bindings 0, 1, 2 where 0 and 1 reference each other and so do 0 and 2. */
  function Star(): Graph {
    Graph([[1, 2], [0], [0]], [false, false, false])
  }

  /** What the table makes of `Star`. */
  lemma StarTable()
    ensures ListsCandidates(Star(), [0, 1, 2])
    ensures SmallCase(Star().refs, [0, 1, 2]) == {}
  {
    var r := Star().refs;
    assert r[0] == [1, 2] && r[1] == [0] && r[2] == [0];
    assert 1 in r[0] && 2 in r[0] && 0 !in r[0];
    assert 0 in r[1] && 1 !in r[1] && 2 !in r[1];
    assert 0 in r[2] && 1 !in r[2] && 2 !in r[2];
  }

  /** In `Star` every binding reaches every binding, through 0. */
  lemma StarMutual()
    ensures forall u, w :: 0 <= u < 3 && 0 <= w < 3 ==> Mutual(Star(), u, w)
  {
    var g := Star();
    assert Edge(g, 0, 1) && Edge(g, 1, 0) && Edge(g, 0, 2) && Edge(g, 2, 0);
    EdgeCReach(g, 0, 1);
    EdgeCReach(g, 1, 0);
    EdgeCReach(g, 0, 2);
    EdgeCReach(g, 2, 0);
    CReachTrans(g, 1, 0, 2);
    CReachTrans(g, 2, 0, 1);
    CReachRefl(g, 0);
    CReachRefl(g, 1);
    CReachRefl(g, 2);
  }

  /**
   * The three bindings form one component nobody enters, so all three are
   * removable; there is no directed triangle and no isolated pair, so the
   * table selects none of them.
   */
  lemma {:induction false} ShortcutMissesStar()
    ensures ListsCandidates(Star(), [0, 1, 2])
    ensures SmallCase(Star().refs, [0, 1, 2]) == {}
    ensures RemovableSet(Star()) == {0, 1, 2}
  {
    var cands: seq<nat> := [0, 1, 2];
    StarTable();
    StarMutual();
    assert forall i, j :: 0 <= i < 3 && 0 <= j < 3 ==> Mutual(Star(), cands[i], cands[j]);
    AllMutualRemovable(Star(), cands);
    OnlyCandidatesRemovable(Star(), cands);
  }

  /** Bindings 0 and 1 reference each other, 0 references itself, and 2 references 0. */
  function EnteredPair(): Graph {
    Graph([[0, 1], [0], [0]], [false, false, false])
  }

  /** What the table makes of `EnteredPair`. */
  lemma EnteredPairTable()
    ensures ListsCandidates(EnteredPair(), [0, 1, 2])
    ensures SmallCase(EnteredPair().refs, [0, 1, 2]) == {0}
  {
    var r := EnteredPair().refs;
    assert r[0] == [0, 1] && r[1] == [0] && r[2] == [0];
    assert 0 in r[0] && 1 in r[0] && 2 !in r[0];
    assert 0 in r[1] && 1 !in r[1] && 2 !in r[1];
    assert 0 in r[2] && 1 !in r[2] && 2 !in r[2];
  }

  /** In `EnteredPair`, 0 and 1 form a component and 2 is reachable from neither. */
  lemma EnteredPairReach()
    ensures Mutual(EnteredPair(), 0, 0) && Mutual(EnteredPair(), 0, 1) && Mutual(EnteredPair(), 1, 0)
    ensures Edge(EnteredPair(), 2, 0)
    ensures !CReach(EnteredPair(), 0, 2) && !CReach(EnteredPair(), 1, 2)
  {
    var g := EnteredPair();
    assert Edge(g, 0, 1) && Edge(g, 1, 0) && Edge(g, 2, 0);
    EdgeCReach(g, 0, 1);
    EdgeCReach(g, 1, 0);
    CReachRefl(g, 0);
    CReachRefl(g, 1);
    var pair: set<nat> := {0, 1};
    forall x, y | x in pair && Edge(g, x, y)
      ensures y in pair
    {
    }
    if CReach(g, 0, 2) {
      CReachStaysIn(g, pair, 0, 2);
    }
    if CReach(g, 1, 2) {
      CReachStaysIn(g, pair, 1, 2);
    }
  }

  /**
   * Binding 2 enters the component {0, 1}, so nothing is removable; the
   * table still selects 0 for referencing itself.
   */
  lemma {:induction false} ShortcutSelectsEnteredPair()
    ensures ListsCandidates(EnteredPair(), [0, 1, 2])
    ensures SmallCase(EnteredPair().refs, [0, 1, 2]) == {0}
    ensures RemovableSet(EnteredPair()) == {}
  {
    EnteredPairTable();
    forall u | u in RemovableSet(EnteredPair())
      ensures false
    {
      EnteredPairNotRemovable(u);
    }
  }

  /** No binding of `EnteredPair` is removable: 0 and 1 are entered from 2, and 2 is alone without a self-reference. */
  lemma EnteredPairNotRemovable(u: nat)
    ensures !Removable(EnteredPair(), u)
  {
    var g := EnteredPair();
    EnteredPairReach();
    if u == 0 {
      assert NonTrivial(g, 0) && !Closed(g, 0);
    } else if u == 1 {
      assert NonTrivial(g, 1) && !Closed(g, 1);
    } else if u == 2 {
      assert !NonTrivial(g, 2);
    }
  }
}
