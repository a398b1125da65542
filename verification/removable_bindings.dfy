/**
 * `findRemovableBindings`: build the edge lists, exclude bindings that
 * cannot be removed and everything they reference, then pick the bindings
 * that only sit on closed reference cycles, by hand-written case tables
 * for up to three candidates and by Tarjan's search beyond.
 *
 * The result is a set of indices into the program scope's table.
 */
module RemovableBindings {
  import opened Wrappers
  import opened Bindings
  import opened RefGraph
  import opened Components
  import opened Tarjan

  /** No index occurs twice. */
  predicate Distinct(q: seq<nat>) {
    forall i, j :: 0 <= i < j < |q| ==> q[i] != q[j]
  }

  /** Every binding `x` references is excluded too. */
  predicate Settled(refs: seq<seq<nat>>, excluded: seq<bool>, x: nat)
    requires x < |refs|
  {
    forall k :: 0 <= k < |refs[x]| ==> refs[x][k] < |excluded| && excluded[refs[x][k]]
  }

  /** `j` can be reached along edges from a binding excluded in `start`. */
  ghost predicate ReachedFrom(refs: seq<seq<nat>>, start: seq<bool>, j: nat) {
    exists x :: 0 <= x < |start| && start[x] && Reach(refs, NoneBlocked(|refs|), x, j)
  }

  /** `excluded[x] = 1; candidateCount--; exclusionQueue.push(x)`. */
  method Exclude(excluded: array<bool>, x: nat, queue: seq<nat>, count: int) returns (queue': seq<nat>, count': int)
    requires x < excluded.Length && !excluded[x] && count == |CandidatesBelow(excluded[..], excluded.Length)|
    modifies excluded
    ensures excluded[..] == old(excluded[..])[x := true]
    ensures queue' == queue + [x] && count' == count - 1
    ensures count' == |CandidatesBelow(excluded[..], excluded.Length)|
  {
    ExcludeOne(excluded[..], x, excluded.Length);
    excluded[x] := true;
    count' := count - 1;
    queue' := queue + [x];
  }

  /**
   * The inner loop over the references of binding `i`: record `i` in the
   * edge list of each reference's container, once, and stop at the first
   * reference that has no container, reporting it.
   */
  method ScanReferences(table: seq<Binding>, i: nat, refs: array<seq<nat>>) returns (uncontained: bool)
    requires ContainersInRange(table) && i < |table| && !ExcludedUpFront(table[i]) && refs.Length == |table|
    requires forall c :: 0 <= c < refs.Length ==> refs[c] == RefsFrom(table, c, i)
    modifies refs
    ensures uncontained <==> None in table[i].containers
    ensures forall c :: 0 <= c < refs.Length ==> refs[c] == RefsFrom(table, c, i + 1)
  {
    var b := table[i];
    var k := 0;
    uncontained := false;
    while k < |b.containers|
      invariant k <= |b.containers| && None !in b.containers[..k]
      invariant forall c :: 0 <= c < refs.Length ==> refs[c] == RefsFrom(table, c, i) + if Some(c) in b.containers[..k] then [i] else []
    {
      assert b.containers[..k + 1] == b.containers[..k] + [b.containers[k]];
      match b.containers[k]
      case Some(c) =>
        if i !in refs[c] {
          refs[c] := refs[c] + [i];
        }
        k := k + 1;
      case None =>
        uncontained := true;
        break;
    }
    if !uncontained {
      assert b.containers[..k] == b.containers;
    }
    forall c | 0 <= c < refs.Length
      ensures Contributes(b, c) <==> Some(c) in b.containers[..k]
    {
      ContributesBefore(b, c, k);
    }
  }

  /** A binding excluded up front adds no edge. */
  lemma SkipUpFront(table: seq<Binding>, i: nat)
    requires i < |table| && ExcludedUpFront(table[i])
    ensures forall c: nat :: RefsFrom(table, c, i + 1) == RefsFrom(table, c, i)
  {
  }

  /** The edge lists, exclusion marks, queue and count once bindings `0 .. i-1` have been looked at. */
  ghost predicate BuiltUpTo(table: seq<Binding>, i: nat, refs: seq<seq<nat>>, excluded: seq<bool>, queue: seq<nat>, count: int) {
    && i <= |table| && |refs| == |table| && |excluded| == |table|
    && (forall c :: 0 <= c < |table| ==> refs[c] == RefsFrom(table, c, i))
    && (forall j :: 0 <= j < |table| ==> (excluded[j] <==> j < i && InitiallyExcluded(table[j])))
    && queue == InitialQueue(table, i) && count == |table| - |queue|
  }

  /** One round of the loop over the bindings: binding `i`. */
  method BuildStep(table: seq<Binding>, i: nat, refs: array<seq<nat>>, excluded: array<bool>, queue: seq<nat>, count: int)
    returns (queue': seq<nat>, count': int)
    requires ContainersInRange(table) && i < |table|
    requires BuiltUpTo(table, i, refs[..], excluded[..], queue, count)
    modifies refs, excluded
    ensures BuiltUpTo(table, i + 1, refs[..], excluded[..], queue', count')
  {
    var b := table[i];
    queue', count' := queue, count;
    if |b.violations| > 0 || IsLoopIteratorBinding(b) {
      excluded[i] := true;
      count' := count' - 1;
      queue' := queue' + [i];
      SkipUpFront(table, i);
    } else {
      var uncontained := ScanReferences(table, i, refs);
      if uncontained && !excluded[i] {
        excluded[i] := true;
        count' := count' - 1;
        queue' := queue' + [i];
      }
    }
  }

  /**
   * The loop over the bindings (src/find-removable-bindings.ts:29-65): exclude
   * reassigned bindings and loop iterators, record for every other one the
   * containers of its references as edges, and exclude it at the first
   * reference no declaration encloses.
   */
  method BuildRefs(table: seq<Binding>) returns (refs: array<seq<nat>>, excluded: array<bool>, queue: seq<nat>, candidateCount: int)
    requires ContainersInRange(table)
    ensures fresh(refs) && fresh(excluded)
    ensures BuiltUpTo(table, |table|, refs[..], excluded[..], queue, candidateCount)
    ensures Distinct(queue)
    ensures candidateCount == |CandidatesBelow(excluded[..], |table|)|
  {
    var n := |table|;
    refs := new seq<nat>[n](_ => []);
    excluded := new bool[n](_ => false);
    queue := [];
    candidateCount := n;
    BuiltFromStart(table, refs[..], excluded[..]);
    var i := 0;
    while i < n
      invariant i <= n
      invariant BuiltUpTo(table, i, refs[..], excluded[..], queue, candidateCount)
    {
      queue, candidateCount := BuildStep(table, i, refs, excluded, queue, candidateCount);
      i := i + 1;
    }
    BuiltAll(table, refs[..], excluded[..], queue, candidateCount);
  }

  /** Before the loop: no edges, no marks, an empty queue. */
  lemma BuiltFromStart(table: seq<Binding>, refs: seq<seq<nat>>, excluded: seq<bool>)
    requires |refs| == |table| && |excluded| == |table|
    requires forall c :: 0 <= c < |refs| ==> refs[c] == []
    requires forall j :: 0 <= j < |excluded| ==> !excluded[j]
    ensures BuiltUpTo(table, 0, refs, excluded, [], |table|)
  {
  }

  /** After the loop: the queue has no repetitions and the count is the number of unmarked bindings. */
  lemma BuiltAll(table: seq<Binding>, refs: seq<seq<nat>>, excluded: seq<bool>, queue: seq<nat>, count: int)
    requires BuiltUpTo(table, |table|, refs, excluded, queue, count)
    ensures Distinct(queue)
    ensures count == |CandidatesBelow(excluded, |table|)|
  {
    InitialQueueIncreasing(table, |table|);
    CandidatesAndQueue(table, excluded, |table|);
  }

  /**
   * What the inner loop of the propagation keeps once it has looked at the
   * first `k` targets of `idx`: those are marked, the marks only grow,
   * every new mark is a target of `idx` and queued, the queue only gains
   * new marks, and the count follows the marks.
   */
  ghost predicate Excluding(refs: seq<seq<nat>>, idx: nat, k: nat, before: seq<bool>, ex: seq<bool>,
                            queue: seq<nat>, queue': seq<nat>, count: int, count': int) {
    && RefsInRange(refs) && |refs| == |ex| && idx < |refs| && k <= |refs[idx]|
    && Grows(before, ex)
    && (forall i :: 0 <= i < k ==> ex[refs[idx][i]])
    && (forall j :: 0 <= j < |ex| && ex[j] && !before[j] ==> j in refs[idx] && j in queue')
    && (forall x :: x in queue' ==> x in queue || (0 <= x < |ex| && ex[x] && !before[x]))
    && (forall x :: x in queue ==> x in queue')
    && count' == |CandidatesBelow(ex, |ex|)|
    && count' <= count && (count' == count ==> queue' == queue)
  }

  /** Looking at target `k`: it is either marked already, or marked and queued now. */
  lemma ExcludingStep(refs: seq<seq<nat>>, idx: nat, k: nat, before: seq<bool>, ex: seq<bool>, ex': seq<bool>,
                      queue: seq<nat>, q: seq<nat>, q': seq<nat>, count: int, c: int, c': int)
    requires Excluding(refs, idx, k, before, ex, queue, q, count, c) && k < |refs[idx]|
    requires var t := refs[idx][k];
      || (ex[t] && ex' == ex && q' == q && c' == c)
      || (!ex[t] && ex' == ex[t := true] && q' == q + [t] && c' == c - 1 && c' == |CandidatesBelow(ex', |ex'|)|)
    ensures Excluding(refs, idx, k + 1, before, ex', queue, q', count, c')
  {
  }

  /**
   * The inner loop of the propagation: every target of `idx` not yet
   * excluded is excluded and queued.
   */
  method ExcludeTargets(refs: seq<seq<nat>>, excluded: array<bool>, idx: nat, queue: seq<nat>, count: int)
    returns (queue': seq<nat>, count': int)
    requires RefsInRange(refs) && |refs| == excluded.Length && idx < |refs|
    requires count == |CandidatesBelow(excluded[..], excluded.Length)|
    modifies excluded
    ensures Excluding(refs, idx, |refs[idx]|, old(excluded[..]), excluded[..], queue, queue', count, count')
  {
    var targets := refs[idx];
    queue', count' := queue, count;
    var k := 0;
    while k < |targets|
      invariant Excluding(refs, idx, k, old(excluded[..]), excluded[..], queue, queue', count, count')
    {
      var target := targets[k];
      ghost var ex, q, c := excluded[..], queue', count';
      if !excluded[target] {
        queue', count' := Exclude(excluded, target, queue', count');
      }
      ExcludingStep(refs, idx, k, old(excluded[..]), ex, excluded[..], queue, q, queue', count, c, count');
      k := k + 1;
    }
  }

  /** `ex` only adds marks to `start`. */
  predicate Grows(start: seq<bool>, ex: seq<bool>) {
    |start| == |ex| && forall j :: 0 <= j < |ex| && start[j] ==> ex[j]
  }

  /**
   * What the propagation loop keeps: the marks only grow, every mark is
   * reachable from one set on entry, queued bindings are marked, and every
   * marked binding off the queue has all its targets marked.
   */
  ghost predicate Propagating(refs: seq<seq<nat>>, start: seq<bool>, ex: seq<bool>, queue: seq<nat>, count: int) {
    && RefsInRange(refs) && |refs| == |ex| && Grows(start, ex)
    && (forall j :: 0 <= j < |ex| && ex[j] ==> ReachedFrom(refs, start, j))
    && (forall x :: x in queue ==> 0 <= x < |ex| && ex[x])
    && (forall x :: 0 <= x < |ex| && ex[x] && x !in queue ==> Settled(refs, ex, x))
    && count == |CandidatesBelow(ex, |ex|)|
  }

  /** Marks that only grow keep a binding settled. */
  lemma SettledGrows(refs: seq<seq<nat>>, ex: seq<bool>, ex': seq<bool>, x: nat)
    requires x < |refs| && Settled(refs, ex, x) && Grows(ex, ex')
    ensures Settled(refs, ex', x)
  {
  }

  /**
   * The propagation loop (src/find-removable-bindings.ts:67-80): pop an excluded
   * binding and exclude everything it references, until the queue is
   * empty.  Afterwards the excluded bindings are exactly those reachable
   * from one excluded on entry.
   */
  method PropagateExclusion(refs: seq<seq<nat>>, excluded: array<bool>, queue0: seq<nat>, count0: int) returns (count: int)
    requires RefsInRange(refs) && |refs| == excluded.Length
    requires forall x :: x in queue0 ==> 0 <= x < excluded.Length && excluded[x]
    requires forall x :: 0 <= x < excluded.Length && excluded[x] && x !in queue0 ==> Settled(refs, excluded[..], x)
    requires count0 == |CandidatesBelow(excluded[..], excluded.Length)|
    modifies excluded
    ensures forall j :: 0 <= j < excluded.Length ==> (excluded[j] <==> ReachedFrom(refs, old(excluded[..]), j))
    ensures count == |CandidatesBelow(excluded[..], excluded.Length)|
  {
    var n := excluded.Length;
    ghost var start := excluded[..];
    var queue := queue0;
    count := count0;
    PropagatingAtStart(refs, start, queue0, count0);
    while |queue| > 0
      invariant excluded.Length == n
      invariant Propagating(refs, start, excluded[..], queue, count)
      decreases count, |queue|
    {
      var last := |queue| - 1;
      var idx := queue[last];
      assert queue == queue[..last] + [idx];
      queue := queue[..last];
      queue, count := PropagateStep(refs, excluded, start, idx, queue, count);
    }
    SettledClosure(refs, start, excluded[..]);
  }

  /** On entry the invariant of the propagation loop holds: every mark is reachable from itself. */
  lemma PropagatingAtStart(refs: seq<seq<nat>>, start: seq<bool>, queue: seq<nat>, count: int)
    requires RefsInRange(refs) && |refs| == |start|
    requires forall x :: x in queue ==> 0 <= x < |start| && start[x]
    requires forall x :: 0 <= x < |start| && start[x] && x !in queue ==> Settled(refs, start, x)
    requires count == |CandidatesBelow(start, |start|)|
    ensures Propagating(refs, start, start, queue, count)
  {
    forall j | 0 <= j < |start| && start[j]
      ensures ReachedFrom(refs, start, j)
    {
      ReachRefl(refs, NoneBlocked(|refs|), j);
    }
  }

  /** Once every mark is settled, everything reachable from a mark set on entry is marked. */
  lemma SettledClosure(refs: seq<seq<nat>>, start: seq<bool>, ex: seq<bool>)
    requires RefsInRange(refs) && |refs| == |ex| && Grows(start, ex)
    requires forall x :: 0 <= x < |ex| && ex[x] ==> Settled(refs, ex, x)
    requires forall j :: 0 <= j < |ex| && ex[j] ==> ReachedFrom(refs, start, j)
    ensures forall j :: 0 <= j < |ex| ==> (ex[j] <==> ReachedFrom(refs, start, j))
  {
    var a := set x: nat | x < |ex| && ex[x];
    forall x, y | x in a && x < |refs| && y in refs[x] && Open(refs, NoneBlocked(|refs|), y)
      ensures y in a
    {
      assert Settled(refs, ex, x);
    }
    forall j | 0 <= j < |ex| && ReachedFrom(refs, start, j)
      ensures ex[j]
    {
      var x :| 0 <= x < |start| && start[x] && Reach(refs, NoneBlocked(|refs|), x, j);
      ReachStaysIn(refs, NoneBlocked(|refs|), a, {}, x, j);
    }
  }

  /** One round of the propagation: binding `idx`, just popped. */
  method PropagateStep(refs: seq<seq<nat>>, excluded: array<bool>, ghost start: seq<bool>, idx: nat, queue: seq<nat>, count: int)
    returns (queue': seq<nat>, count': int)
    requires Propagating(refs, start, excluded[..], queue + [idx], count)
    modifies excluded
    ensures Propagating(refs, start, excluded[..], queue', count')
    ensures count' <= count && (count' == count ==> queue' == queue)
  {
    assert idx in queue + [idx];
    queue', count' := ExcludeTargets(refs, excluded, idx, queue, count);
    PropagateKept(refs, start, old(excluded[..]), excluded[..], idx, queue, queue', count, count');
  }

  /** After the targets of `idx` are marked, the propagation invariant holds again without `idx` on the queue. */
  lemma PropagateKept(refs: seq<seq<nat>>, start: seq<bool>, before: seq<bool>, ex: seq<bool>, idx: nat,
                      queue: seq<nat>, queue': seq<nat>, count: int, count': int)
    requires Propagating(refs, start, before, queue + [idx], count) && idx < |refs|
    requires Excluding(refs, idx, |refs[idx]|, before, ex, queue, queue', count, count')
    ensures Propagating(refs, start, ex, queue', count')
  {
    assert idx in queue + [idx];
    forall x | x in queue'
      ensures 0 <= x < |ex| && ex[x]
    {
      if x in queue {
        assert x in queue + [idx];
      }
    }
    forall j | 0 <= j < |ex| && ex[j]
      ensures ReachedFrom(refs, start, j)
    {
      if !before[j] {
        var x :| 0 <= x < |start| && start[x] && Reach(refs, NoneBlocked(|refs|), x, idx);
        ReachStep(refs, NoneBlocked(|refs|), x, idx, j);
      }
    }
    forall x | 0 <= x < |ex| && ex[x] && x !in queue'
      ensures Settled(refs, ex, x)
    {
      if x != idx {
        assert x !in queue + [idx];
        SettledGrows(refs, before, ex, x);
      } else {
        assert forall i :: 0 <= i < |refs[idx]| ==> ex[refs[idx][i]];
      }
    }
  }
}
