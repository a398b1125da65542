/**
 * `findRemovableBindings` end to end: build the edge lists, propagate the
 * exclusions, and select the removable bindings, by the case tables for at
 * most three candidates and by Tarjan's search beyond.
 *
 * `Selected` is what the selection is meant to be: the removable bindings
 * (`RemovableSet`) of the graph the edge-building and propagation loops
 * define.  The lemmas about it say why a selected binding can go: it is
 * not kept up front, nothing kept references it, and every reference to
 * it lies inside the declaration of another candidate.
 */
module FindRemovable {
  import opened Wrappers
  import opened Bindings
  import opened RefGraph
  import opened RemovableBindings
  import opened Shortcuts
  import opened Tarjan

  /** The edge lists once every binding has been looked at: `refs[c]` lists the bindings referenced inside `c`'s declaration. */
  function CandidateRefs(table: seq<Binding>): (r: seq<seq<nat>>)
    ensures |r| == |table| && forall c :: 0 <= c < |table| ==> r[c] == RefsFrom(table, c, |table|)
  {
    seq(|table|, c requires 0 <= c < |table| => RefsFrom(table, c, |table|))
  }

  /** Every edge of the edge lists ends at a binding of the table. */
  lemma CandidateRefsInRange(table: seq<Binding>)
    ensures RefsInRange(CandidateRefs(table))
  {
    var r := CandidateRefs(table);
    forall c, k | 0 <= c < |r| && 0 <= k < |r[c]|
      ensures r[c][k] < |r|
    {
      assert r[c][k] in RefsFrom(table, c, |table|);
    }
  }

  /** The bindings the edge-building loop excludes. */
  function InitialMarks(table: seq<Binding>): (r: seq<bool>)
    ensures |r| == |table| && forall j :: 0 <= j < |table| ==> (r[j] <==> InitiallyExcluded(table[j]))
  {
    seq(|table|, j requires 0 <= j < |table| => InitiallyExcluded(table[j]))
  }

  /** The bindings kept after propagation: those a binding excluded up front reaches along edges. */
  ghost function FinalMarks(table: seq<Binding>): seq<bool> {
    seq(|table|, j requires 0 <= j < |table| => ReachedFrom(CandidateRefs(table), InitialMarks(table), j))
  }

  ghost function CandidateGraph(table: seq<Binding>): Graph {
    Graph(CandidateRefs(table), FinalMarks(table))
  }

  lemma CandidateGraphWellFormed(table: seq<Binding>)
    ensures WellFormed(CandidateGraph(table))
  {
    CandidateRefsInRange(table);
  }

  /** The bindings `findRemovableBindings` is meant to return. */
  ghost function Selected(table: seq<Binding>): set<nat> {
    RemovableSet(CandidateGraph(table))
  }

  /** A binding excluded by the edge-building loop is never selected. */
  lemma KeptNeverSelected(table: seq<Binding>, j: nat)
    requires j < |table| && InitiallyExcluded(table[j])
    ensures j !in Selected(table)
  {
    ReachRefl(CandidateRefs(table), NoneBlocked(|table|), j);
    assert FinalMarks(table)[j];
  }

  /** A binding referenced inside the declaration of a kept binding is kept, so never selected. */
  lemma ReferencedByKeptNeverSelected(table: seq<Binding>, c: nat, j: nat)
    requires c < |table| && j < |table| && FinalMarks(table)[c] && Contributes(table[j], c)
    ensures FinalMarks(table)[j] && j !in Selected(table)
  {
    var refs := CandidateRefs(table);
    var x :| 0 <= x < |table| && InitialMarks(table)[x] && Reach(refs, NoneBlocked(|table|), x, c);
    assert j in refs[c];
    ReachStep(refs, NoneBlocked(|table|), x, c, j);
  }

  /** Every reference to a selected binding lies inside the declaration of a binding that is not kept. */
  lemma SelectedReferencedOnlyByCandidates(table: seq<Binding>, u: nat, k: nat)
    requires ContainersInRange(table) && u in Selected(table) && k < |table[u].containers|
    ensures table[u].containers[k].Some?
    ensures var c := table[u].containers[k].value; c < |table| && !FinalMarks(table)[c]
  {
    assert u < |table| && !FinalMarks(table)[u];
    if InitiallyExcluded(table[u]) {
      KeptNeverSelected(table, u);
    }
    assert table[u].containers[k] in table[u].containers;
    var c := table[u].containers[k].value;
    assert None !in table[u].containers[..k];
    assert Contributes(table[u], c);
    if FinalMarks(table)[c] {
      ReferencedByKeptNeverSelected(table, c, u);
    }
  }

  /** `CandidatesBelow` of a well-formed graph lists its candidates, in index order. */
  lemma CandidatesListed(g: Graph)
    requires WellFormed(g)
    ensures ListsCandidates(g, CandidatesBelow(g.excluded, |g.refs|))
    ensures forall p, q :: 0 <= p < q < |CandidatesBelow(g.excluded, |g.refs|)| ==>
      CandidatesBelow(g.excluded, |g.refs|)[p] < CandidatesBelow(g.excluded, |g.refs|)[q]
  {
    CandidatesIncreasing(g.excluded, |g.refs|);
    CandidatesMembers(g.excluded, |g.refs|);
  }

  /** With no candidate left nothing is removable. */
  lemma NoCandidateNoneRemovable(g: Graph)
    requires WellFormed(g) && |CandidatesBelow(g.excluded, |g.refs|)| == 0
    ensures RemovableSet(g) == {}
  {
    CandidatesMembers(g.excluded, |g.refs|);
    forall u | u in RemovableSet(g)
      ensures false
    {
    }
  }

  /** The edge-building and propagation loops, leaving the edge lists and final marks. */
  method Prepare(table: seq<Binding>) returns (refs: array<seq<nat>>, excluded: array<bool>, count: int)
    requires ContainersInRange(table)
    ensures fresh(refs) && fresh(excluded)
    ensures refs[..] == CandidateRefs(table) && excluded[..] == FinalMarks(table)
    ensures count == |CandidatesBelow(excluded[..], |table|)|
  {
    var queue;
    refs, excluded, queue, count := BuildRefs(table);
    assert refs[..] == CandidateRefs(table);
    assert excluded[..] == InitialMarks(table);
    CandidateRefsInRange(table);
    count := PropagateExclusion(refs[..], excluded, queue, count);
  }

  /** The candidates in index order, collected until `count` of them are found (src/find-removable-bindings.ts:86-89). */
  method SmallCandidates(excluded: array<bool>, count: int) returns (candidates: seq<nat>)
    requires count == |CandidatesBelow(excluded[..], excluded.Length)|
    ensures candidates == CandidatesBelow(excluded[..], excluded.Length)
  {
    candidates := [];
    var i := 0;
    while i < excluded.Length && |candidates| < count
      invariant i <= excluded.Length && candidates == CandidatesBelow(excluded[..], i)
    {
      if !excluded[i] {
        candidates := candidates + [i];
      }
      i := i + 1;
    }
    CandidatesGrow(excluded[..], i, excluded.Length);
    CandidatesComplete(excluded[..], i, excluded.Length);
  }

  /** Tarjan's search, the marking of entered components and the collection (src/find-removable-bindings.ts:165-243). */
  method SearchAll(g: Graph) returns (removable: set<nat>)
    requires WellFormed(g)
    ensures removable == RemovableSet(g)
  {
    var search := new Search(g);
    search.Run();
    var hasIncoming := search.MarkIncoming();
    removable := search.Collect(hasIncoming);
  }

  /**
   * What `findRemovableBindings` as written returns: the case tables for
   * one to three candidates, the components beyond.
   */
  ghost function SelectedAsWritten(table: seq<Binding>): set<nat> {
    var g := CandidateGraph(table);
    var cands := CandidatesBelow(g.excluded, |g.refs|);
    CandidateGraphWellFormed(table);
    CandidatesListed(g);
    if 1 <= |cands| <= 3 then SmallCase(g.refs, cands) else Selected(table)
  }

  /**
   * The code as written returns only candidates, and agrees with
   * `Selected` unless exactly three candidates are left in a shape the
   * table was not written for.
   */
  lemma {:induction false} AsWrittenAgrees(table: seq<Binding>)
    ensures forall u :: u in SelectedAsWritten(table) ==> u < |table| && !FinalMarks(table)[u]
    ensures var cands := CandidatesBelow(FinalMarks(table), |table|);
      |cands| != 3 || TableShape(CandidateRefs(table), cands) ==> SelectedAsWritten(table) == Selected(table)
  {
    var g := CandidateGraph(table);
    var cands := CandidatesBelow(g.excluded, |g.refs|);
    CandidateGraphWellFormed(table);
    CandidatesListed(g);
    if |cands| == 0 {
      NoCandidateNoneRemovable(g);
    } else if |cands| == 1 {
      OneCandidateAgrees(g, cands);
    } else if |cands| == 2 {
      TwoCandidatesAgree(g, cands);
    } else if |cands| == 3 && TableShape(g.refs, cands) {
      ThreeCandidatesAgree(g, cands);
    }
  }

  /**
   * A reassigned binding or the iterator of a `for … of` / `for … in` loop
   * is never removable, by either reading of the selection.
   */
  lemma ExcludedUpFrontNeverRemovable(table: seq<Binding>, j: nat)
    requires j < |table| && ExcludedUpFront(table[j])
    ensures j !in Selected(table) && j !in SelectedAsWritten(table)
  {
    KeptNeverSelected(table, j);
    AsWrittenAgrees(table);
    ReachRefl(CandidateRefs(table), NoneBlocked(|table|), j);
    assert FinalMarks(table)[j];
  }

  /**
   * `findRemovableBindings` as written: the case tables answer for up to
   * three candidates.
   */
  method FindRemovableBindingsAsWritten(table: seq<Binding>) returns (removable: set<nat>)
    requires ContainersInRange(table)
    ensures removable == SelectedAsWritten(table)
    ensures forall u :: u in removable ==> u < |table| && !FinalMarks(table)[u]
    ensures var cands := CandidatesBelow(FinalMarks(table), |table|);
      |cands| != 3 || TableShape(CandidateRefs(table), cands) ==> removable == Selected(table)
  {
    AsWrittenAgrees(table);
    if |table| == 0 {
      return {};
    }
    var refs, excluded, count := Prepare(table);
    var g := Graph(refs[..], excluded[..]);
    CandidateGraphWellFormed(table);
    if count == 0 {
      NoCandidateNoneRemovable(g);
      return {};
    }
    if count <= 3 {
      var candidates := SmallCandidates(excluded, count);
      CandidatesListed(g);
      removable := SmallCase(refs[..], candidates);
    } else {
      removable := SearchAll(g);
    }
  }

  /**
   * `findRemovableBindings` with the case tables kept for one and two
   * candidates, where they agree with the components, and Tarjan's search
   * from three candidates on.
   */
  method FindRemovableBindings(table: seq<Binding>) returns (removable: set<nat>)
    requires ContainersInRange(table)
    ensures removable == Selected(table)
  {
    if |table| == 0 {
      return {};
    }
    var refs, excluded, count := Prepare(table);
    var g := Graph(refs[..], excluded[..]);
    CandidateGraphWellFormed(table);
    if count == 0 {
      NoCandidateNoneRemovable(g);
      return {};
    }
    if count <= 2 {
      var candidates := SmallCandidates(excluded, count);
      CandidatesListed(g);
      removable := SmallCase(refs[..], candidates);
      if count == 1 {
        OneCandidateAgrees(g, candidates);
      } else {
        TwoCandidatesAgree(g, candidates);
      }
    } else {
      removable := SearchAll(g);
    }
  }
}
