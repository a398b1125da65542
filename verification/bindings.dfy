/**
 * Bindings as a crawl of the program's scopes reports them, and the edge
 * lists and exclusion marks that `findRemovableBindings` derives from the
 * program scope's bindings before it looks for cycles.
 *
 * A binding is identified by its index in the program scope's table
 * (`Object.values(programPath.scope.bindings)`).  The walk up the syntax
 * tree that finds, for each reference, the nearest enclosing node that is
 * a binding's declaration node is not modelled: its outcome is given as
 * `containers`.  Bindings that share a declaration node (the variables of
 * one destructuring declarator) are all represented by the last of them in
 * the table, since the map from declaration nodes to indices keeps the
 * last index written.
 */
module Bindings {
  import opened Wrappers
  import opened Ast

  /** Where a declarator's parent (its `VariableDeclaration`) hangs: the key it sits under and the kind of node holding it. */
  datatype Slot = Slot(key: string, holder: NodeKind)

  /** A reference or constant violation: its node and the nodes above it, innermost first. */
  datatype Use = Use(node: NodeId, ancestors: seq<NodeId>)

  /**
   * One binding: the kind and node of its declaration (`binding.path`),
   * where that declaration's parent sits, Babel's `referenced` flag, its
   * references and constant violations, and for each reference the index
   * of the last binding whose declaration node is the nearest declaration
   * node enclosing it, if any.
   */
  datatype Binding = Binding(
    kind: NodeKind,
    declNode: NodeId,
    declSlot: Option<Slot>,
    referenced: bool,
    references: seq<Use>,
    violations: seq<Use>,
    containers: seq<Option<nat>>)

  /**
   * What a crawl of the program yields: every binding of every scope, the
   * first `programCount` of them being the program scope's own, and the
   * binding each identifier node resolves to.
   */
  datatype Scope = Scope(bindings: seq<Binding>, programCount: nat, resolve: map<NodeId, nat>)

  predicate ScopeOk(s: Scope) {
    && s.programCount <= |s.bindings|
    && (forall x :: x in s.resolve ==> s.resolve[x] < |s.bindings|)
  }

  /** The crawl gives a well-formed scope for every tree. */
  ghost predicate CrawlOk(crawl: seq<Node> -> Scope) {
    forall t :: ScopeOk(crawl(t))
  }

  /** The program scope's bindings, the table `findRemovableBindings` works on. */
  function ProgramBindings(s: Scope): (r: seq<Binding>)
    requires ScopeOk(s)
    ensures |r| == s.programCount && forall i :: 0 <= i < |r| ==> r[i] == s.bindings[i]
  {
    s.bindings[..s.programCount]
  }

  /** The binding is declared by the `left` of a `for … of` or `for … in` loop. */
  predicate IsLoopIteratorBinding(b: Binding) {
    && b.kind == VariableDeclarator
    && b.declSlot.Some? && b.declSlot.value.key == "left"
    && (b.declSlot.value.holder == ForOfStatement || b.declSlot.value.holder == ForInStatement)
  }

  /** Every container names a binding of the table. */
  predicate ContainersInRange(table: seq<Binding>) {
    forall i, k :: 0 <= i < |table| && 0 <= k < |table[i].containers| && table[i].containers[k].Some? ==>
      table[i].containers[k].value < |table|
  }

  /** Reassigned bindings and loop iterators are excluded before their references are looked at. */
  predicate ExcludedUpFront(b: Binding) {
    |b.violations| > 0 || IsLoopIteratorBinding(b)
  }

  /** Excluded by the edge-building loop: up front, or for a reference no declaration encloses. */
  predicate InitiallyExcluded(b: Binding) {
    ExcludedUpFront(b) || None in b.containers
  }

  /**
   * A reference to `b` lies inside binding `c`'s declaration and the
   * edge-building loop reaches it: it comes before any reference without
   * a container.
   */
  predicate Contributes(b: Binding, c: nat) {
    && !ExcludedUpFront(b)
    && exists k :: 0 <= k < |b.containers| && b.containers[k] == Some(c) && None !in b.containers[..k]
  }

  /** With no container-less reference among the first `k`, and the `k`-th one container-less or absent, `b` contributes to `c` iff one of the first `k` lies in `c`. */
  lemma ContributesBefore(b: Binding, c: nat, k: nat)
    requires !ExcludedUpFront(b) && k <= |b.containers| && None !in b.containers[..k]
    requires k < |b.containers| ==> b.containers[k] == None
    ensures Contributes(b, c) <==> Some(c) in b.containers[..k]
  {
    if Contributes(b, c) {
      var j :| 0 <= j < |b.containers| && b.containers[j] == Some(c) && None !in b.containers[..j];
      assert b.containers[..k][j] == Some(c);
    }
    if Some(c) in b.containers[..k] {
      var j :| 0 <= j < k && b.containers[..k][j] == Some(c);
      assert b.containers[..j] == b.containers[..k][..j];
    }
  }

  /** The edge list `refs[c]` once bindings `0 .. m-1` have been looked at: the ones that contribute to `c`, in index order. */
  function RefsFrom(table: seq<Binding>, c: nat, m: nat): (r: seq<nat>)
    requires m <= |table|
    ensures forall j: nat :: j in r <==> j < m && Contributes(table[j], c)
  {
    if m == 0 then []
    else RefsFrom(table, c, m - 1) + if Contributes(table[m - 1], c) then [m - 1] else []
  }

  /** An edge list is in increasing order, hence without repetition. */
  lemma {:induction false} RefsIncreasing(table: seq<Binding>, c: nat, m: nat)
    requires m <= |table|
    ensures forall i, j :: 0 <= i < j < |RefsFrom(table, c, m)| ==> RefsFrom(table, c, m)[i] < RefsFrom(table, c, m)[j]
  {
    if m > 0 {
      RefsIncreasing(table, c, m - 1);
      var earlier := RefsFrom(table, c, m - 1);
      assert forall i :: 0 <= i < |earlier| ==> earlier[i] in earlier;
    }
  }

  /** The exclusion queue after the edge-building loop has looked at bindings `0 .. m-1`: the ones it excluded, in index order. */
  function InitialQueue(table: seq<Binding>, m: nat): (r: seq<nat>)
    requires m <= |table|
    ensures forall j: nat :: j in r <==> j < m && InitiallyExcluded(table[j])
  {
    if m == 0 then []
    else InitialQueue(table, m - 1) + if InitiallyExcluded(table[m - 1]) then [m - 1] else []
  }

  /** The initial queue is in increasing order, hence without repetition. */
  lemma {:induction false} InitialQueueIncreasing(table: seq<Binding>, m: nat)
    requires m <= |table|
    ensures forall i, j :: 0 <= i < j < |InitialQueue(table, m)| ==> InitialQueue(table, m)[i] < InitialQueue(table, m)[j]
  {
    if m > 0 {
      InitialQueueIncreasing(table, m - 1);
      var earlier := InitialQueue(table, m - 1);
      assert forall i :: 0 <= i < |earlier| ==> earlier[i] in earlier;
    }
  }

  /** The candidates below `m`: the indices not excluded, in increasing order. */
  function CandidatesBelow(excluded: seq<bool>, m: nat): seq<nat>
    requires m <= |excluded|
  {
    if m == 0 then []
    else CandidatesBelow(excluded, m - 1) + if excluded[m - 1] then [] else [m - 1]
  }

  /** The candidates below `m` are the indices below `m` not excluded. */
  lemma {:induction false} CandidatesMembers(excluded: seq<bool>, m: nat)
    requires m <= |excluded|
    ensures forall j: nat :: j in CandidatesBelow(excluded, m) <==> j < m && !excluded[j]
  {
    if m > 0 {
      CandidatesMembers(excluded, m - 1);
    }
  }

  /** The candidates are listed in increasing order, hence without repetition. */
  lemma {:induction false} CandidatesIncreasing(excluded: seq<bool>, m: nat)
    requires m <= |excluded|
    ensures forall i, j :: 0 <= i < j < |CandidatesBelow(excluded, m)| ==>
      CandidatesBelow(excluded, m)[i] < CandidatesBelow(excluded, m)[j]
  {
    if m > 0 {
      CandidatesIncreasing(excluded, m - 1);
      CandidatesMembers(excluded, m - 1);
      var earlier := CandidatesBelow(excluded, m - 1);
      assert forall i :: 0 <= i < |earlier| ==> earlier[i] in earlier;
    }
  }

  /** Before anything is excluded, every index below `m` is a candidate. */
  lemma {:induction false} AllCandidates(excluded: seq<bool>, m: nat)
    requires m <= |excluded| && forall j :: 0 <= j < |excluded| ==> !excluded[j]
    ensures |CandidatesBelow(excluded, m)| == m
  {
    if m > 0 {
      AllCandidates(excluded, m - 1);
    }
  }

  /** Excluding one more binding removes exactly one candidate (when it lies below `m`). */
  lemma {:induction false} ExcludeOne(excluded: seq<bool>, x: nat, m: nat)
    requires x < |excluded| && !excluded[x] && m <= |excluded|
    ensures |CandidatesBelow(excluded[x := true], m)| == |CandidatesBelow(excluded, m)| - if x < m then 1 else 0
  {
    if m > 0 {
      ExcludeOne(excluded, x, m - 1);
    }
  }

  /** Every index below `m` is either a candidate or in the initial queue. */
  lemma {:induction false} CandidatesAndQueue(table: seq<Binding>, excluded: seq<bool>, m: nat)
    requires m <= |table| && m <= |excluded|
    requires forall j :: 0 <= j < m ==> (excluded[j] <==> InitiallyExcluded(table[j]))
    ensures |CandidatesBelow(excluded, m)| + |InitialQueue(table, m)| == m
  {
    if m > 0 {
      CandidatesAndQueue(table, excluded, m - 1);
    }
  }

  /** Looking further never loses a candidate. */
  lemma {:induction false} CandidatesGrow(excluded: seq<bool>, i: nat, m: nat)
    requires i <= m <= |excluded|
    ensures |CandidatesBelow(excluded, i)| <= |CandidatesBelow(excluded, m)|
    decreases m - i
  {
    if i < m {
      CandidatesGrow(excluded, i, m - 1);
    }
  }

  /** When looking further finds no more candidates, the list is already complete. */
  lemma {:induction false} CandidatesComplete(excluded: seq<bool>, i: nat, m: nat)
    requires i <= m <= |excluded| && |CandidatesBelow(excluded, i)| == |CandidatesBelow(excluded, m)|
    ensures CandidatesBelow(excluded, i) == CandidatesBelow(excluded, m)
    decreases m - i
  {
    if i < m {
      CandidatesGrow(excluded, i, m - 1);
      CandidatesComplete(excluded, i, m - 1);
    }
  }
}
