/**
 * The state of Tarjan's strongly-connected-components search over the
 * candidate graph, as a value, with the invariant the search keeps and the
 * lemmas that carry it across each step (push, one neighbour, finishing a
 * node, popping a component).
 *
 * `num` is the `indices` array (-1 = not yet visited), `low` the `lowlink`
 * array, `sccId` the component id per binding (-1 = none yet).  "Done"
 * means a binding already assigned to a component.  `gray` is the chain of
 * `strongconnect` calls still running (the recursion stack).
 */
module TarjanSpec {
  import opened RefGraph

  datatype State = State(
    num: seq<int>,
    low: seq<int>,
    onStack: seq<bool>,
    sccId: seq<int>,
    stack: seq<nat>,
    sccs: seq<seq<nat>>,
    index: nat)

  predicate Sized(g: Graph, s: State) {
    && WellFormed(g)
    && |s.num| == |g.refs| && |s.low| == |g.refs|
    && |s.onStack| == |g.refs| && |s.sccId| == |g.refs|
  }

  /** Visited bindings carry a number below the counter, and only candidates are visited. */
  predicate NumOk(g: Graph, s: State)
    requires Sized(g, s)
  {
    forall u :: 0 <= u < |g.refs| ==> -1 <= s.num[u] < s.index && (s.num[u] >= 0 ==> !g.excluded[u])
  }

  /** The stack holds visited bindings ... */
  predicate StackInRange(g: Graph, s: State)
    requires Sized(g, s)
  {
    forall i :: 0 <= i < |s.stack| ==> s.stack[i] < |g.refs| && s.num[s.stack[i]] >= 0
  }

  /** ... in increasing visit order ... */
  predicate StackOrdered(g: Graph, s: State)
    requires Sized(g, s) && StackInRange(g, s)
  {
    forall i :: 0 < i < |s.stack| ==> s.num[s.stack[i - 1]] < s.num[s.stack[i]]
  }

  /** ... and `onStack` mirrors it. */
  predicate StackMirror(g: Graph, s: State)
    requires Sized(g, s)
  {
    forall u :: 0 <= u < |g.refs| ==> (s.onStack[u] <==> u in s.stack)
  }

  /** A binding has a component exactly when it is visited and off the stack. */
  predicate DoneOk(g: Graph, s: State)
    requires Sized(g, s)
  {
    forall u :: 0 <= u < |g.refs| ==>
      -1 <= s.sccId[u] < |s.sccs| && (s.sccId[u] >= 0 <==> s.num[u] >= 0 && !s.onStack[u])
  }

  /** `sccs[c]` lists, without repetition, exactly the bindings whose id is `c`. */
  predicate SccsOk(g: Graph, s: State)
    requires Sized(g, s)
  {
    forall c :: 0 <= c < |s.sccs| ==>
      && (forall i :: 0 <= i < |s.sccs[c]| ==> s.sccs[c][i] < |g.refs| && s.sccId[s.sccs[c][i]] == c)
      && (forall i, j :: 0 <= i < j < |s.sccs[c]| ==> s.sccs[c][i] != s.sccs[c][j])
      && (forall u :: 0 <= u < |g.refs| && s.sccId[u] == c ==> u in s.sccs[c])
  }

  /** Every edge out of a finished component ends in a finished component. */
  ghost predicate DoneClosed(g: Graph, s: State)
    requires Sized(g, s)
  {
    forall u: nat, w: nat {:trigger Edge(g, u, w)} :: u < |g.refs| && s.sccId[u] >= 0 && Edge(g, u, w) ==> s.sccId[w] >= 0
  }

  /** Finished components are exactly strongly connected components. */
  ghost predicate DoneSccs(g: Graph, s: State)
    requires Sized(g, s)
  {
    forall u, w {:trigger Mutual(g, u, w)} :: 0 <= u < |g.refs| && 0 <= w < |g.refs| && s.sccId[u] >= 0 ==>
      (s.sccId[w] == s.sccId[u] <==> Mutual(g, u, w))
  }

  /** A binding lower on the stack reaches every binding above it. */
  ghost predicate StackReach(g: Graph, s: State) {
    forall i :: 0 < i < |s.stack| ==> CReach(g, s.stack[i - 1], s.stack[i])
  }

  predicate GrayInRange(g: Graph, gray: seq<nat>) {
    forall k :: 0 <= k < |gray| ==> gray[k] < |g.refs|
  }

  /** The running calls are on the stack ... */
  predicate GrayOnStack(g: Graph, s: State, gray: seq<nat>)
    requires Sized(g, s) && GrayInRange(g, gray)
  {
    forall k :: 0 <= k < |gray| ==> s.onStack[gray[k]]
  }

  /** ... in visit order. */
  predicate GrayOrdered(g: Graph, s: State, gray: seq<nat>)
    requires Sized(g, s) && GrayInRange(g, gray)
  {
    forall k, l :: 0 <= k < l < |gray| ==> s.num[gray[k]] < s.num[gray[l]]
  }

  /** The stack is non-empty only inside a running call, and the oldest running call is its lowest entry. */
  predicate GrayBase(g: Graph, s: State, gray: seq<nat>)
    requires Sized(g, s) && StackInRange(g, s) && GrayInRange(g, gray)
  {
    && (|s.stack| > 0 ==> |gray| > 0)
    && (forall i :: 0 <= i < |s.stack| && |gray| > 0 ==> s.num[gray[0]] <= s.num[s.stack[i]])
  }

  /** Every stack binding reaches the newest running call. */
  ghost predicate GrayReach(g: Graph, s: State, gray: seq<nat>) {
    forall i :: 0 <= i < |s.stack| && |gray| > 0 ==> CReach(g, s.stack[i], gray[|gray| - 1])
  }

  /** Every stack binding visited before `next` reaches `prev`. */
  ghost predicate ChainLink(g: Graph, s: State, prev: nat, next: nat)
    requires Sized(g, s) && StackInRange(g, s) && next < |g.refs|
  {
    forall i :: 0 <= i < |s.stack| && s.num[s.stack[i]] < s.num[next] ==> CReach(g, s.stack[i], prev)
  }

  /** A stack binding visited before `gray[k + 1]` reaches `gray[k]`. */
  ghost predicate GrayChain(g: Graph, s: State, gray: seq<nat>)
    requires Sized(g, s) && StackInRange(g, s) && GrayInRange(g, gray)
  {
    forall k :: 0 <= k < |gray| - 1 ==> ChainLink(g, s, gray[k], gray[k + 1])
  }

  ghost predicate Inv(g: Graph, s: State, gray: seq<nat>) {
    && Sized(g, s)
    && NumOk(g, s)
    && StackInRange(g, s)
    && StackOrdered(g, s)
    && StackMirror(g, s)
    && DoneOk(g, s)
    && SccsOk(g, s)
    && DoneClosed(g, s)
    && DoneSccs(g, s)
    && StackReach(g, s)
    && GrayInRange(g, gray)
    && GrayOnStack(g, s, gray)
    && GrayOrdered(g, s, gray)
    && GrayBase(g, s, gray)
    && GrayReach(g, s, gray)
    && GrayChain(g, s, gray)
  }

  /** The state in which no binding has been visited yet. */
  function Initial(n: nat): State {
    State(seq(n, _ => -1), seq(n, _ => 0), seq(n, _ => false), seq(n, _ => -1), [], [], 0)
  }

  lemma InitialInv(g: Graph)
    requires WellFormed(g)
    ensures Inv(g, Initial(|g.refs|), [])
  {
  }

  /** The low value of `v` names a binding on the stack that `v` reaches. */
  ghost predicate LowWitness(g: Graph, s: State, v: nat)
    requires Sized(g, s)
  {
    && v < |g.refs|
    && 0 <= s.low[v] <= s.num[v]
    && exists z :: 0 <= z < |g.refs| && s.onStack[z] && s.num[z] == s.low[v] && CReach(g, v, z)
  }

  /**
   * Every edge leaving a binding that was pushed since `v` (for `v` itself,
   * only its first `k` neighbours) ends at a visited binding that is
   * finished or numbered no lower than `low[v]`.
   */
  ghost predicate Frontier(g: Graph, s: State, v: nat, k: nat)
    requires Sized(g, s) && v < |g.refs| && k <= |g.refs[v]|
  {
    forall y: nat, w: nat {:trigger Edge(g, y, w)} ::
      (y < |g.refs| && s.onStack[y] && s.num[y] >= s.num[v] && Edge(g, y, w) && (y == v ==> w in g.refs[v][..k])) ==>
      s.num[w] >= 0 && (s.sccId[w] >= 0 || s.num[w] >= s.low[v])
  }

  /** How the state may evolve while a call runs: nothing visited or finished is forgotten. */
  ghost predicate Grows(g: Graph, a: State, b: State) {
    && Sized(g, a) && Sized(g, b)
    && a.index <= b.index
    && (forall u :: 0 <= u < |g.refs| && a.num[u] >= 0 ==> b.num[u] == a.num[u])
    && (forall u :: 0 <= u < |g.refs| && a.num[u] < 0 && b.num[u] >= 0 ==> b.num[u] >= a.index)
    && (forall u :: 0 <= u < |g.refs| && a.sccId[u] >= 0 ==> b.sccId[u] == a.sccId[u])
    && |a.stack| <= |b.stack| && b.stack[..|a.stack|] == a.stack
    && (forall i :: |a.stack| <= i < |b.stack| ==> b.stack[i] < |g.refs| && b.num[b.stack[i]] >= a.index)
    && |a.sccs| <= |b.sccs| && b.sccs[..|a.sccs|] == a.sccs
  }

  ghost function Unvisited(s: State): set<nat> {
    set u: nat | u < |s.num| && s.num[u] < 0
  }

  /** The state right after `strongconnect(v)` numbers `v` and pushes it. */
  function Push(s: State, v: nat): State
    requires v < |s.num| && v < |s.low| && v < |s.onStack|
  {
    s.(num := s.num[v := s.index], low := s.low[v := s.index], onStack := s.onStack[v := true],
       stack := s.stack + [v], index := s.index + 1)
  }

  // ---------------------------------------------------------------------
  // Small facts
  // ---------------------------------------------------------------------

  /** Visit numbers increase all the way up the stack. */
  lemma {:induction false} StackIncreasing(g: Graph, s: State, i: nat, j: nat)
    requires Sized(g, s) && StackInRange(g, s) && StackOrdered(g, s)
    requires i < j < |s.stack|
    ensures s.num[s.stack[i]] < s.num[s.stack[j]]
    decreases j - i
  {
    if i + 1 < j {
      StackIncreasing(g, s, i, j - 1);
    }
  }

  /** A binding lower on the stack reaches every binding above it. */
  lemma {:induction false} StackReaches(g: Graph, s: State, i: nat, j: nat)
    requires StackReach(g, s) && i < j < |s.stack|
    ensures CReach(g, s.stack[i], s.stack[j])
    decreases j - i
  {
    if i + 1 < j {
      StackReaches(g, s, i, j - 1);
      CReachTrans(g, s.stack[i], s.stack[j - 1], s.stack[j]);
    }
  }

  /** On a stack ordered by visit number, visit order is stack order. */
  lemma StackOrder(g: Graph, s: State, i: nat, j: nat)
    requires Sized(g, s) && StackInRange(g, s) && StackOrdered(g, s)
    requires i < |s.stack| && j < |s.stack| && s.num[s.stack[i]] <= s.num[s.stack[j]]
    ensures i <= j
  {
    if j < i {
      StackIncreasing(g, s, j, i);
    }
  }

  lemma StackIndexOf(s: State, u: nat) returns (i: nat)
    requires u in s.stack
    ensures i < |s.stack| && s.stack[i] == u
  {
    i :| 0 <= i < |s.stack| && s.stack[i] == u;
  }

  /** Two stack bindings, the first visited no later, are connected by a walk. */
  lemma StackReachByNum(g: Graph, s: State, x: nat, y: nat)
    requires Sized(g, s) && NumOk(g, s) && StackInRange(g, s) && StackOrdered(g, s) && StackReach(g, s)
    requires x in s.stack && y in s.stack && s.num[x] <= s.num[y]
    ensures CReach(g, x, y)
  {
    var i := StackIndexOf(s, x);
    var j := StackIndexOf(s, y);
    StackOrder(g, s, i, j);
    if i == j {
      CReachRefl(g, x);
    } else {
      StackReaches(g, s, i, j);
    }
  }

  lemma GrowsTrans(g: Graph, a: State, b: State, c: State)
    requires Grows(g, a, b) && Grows(g, b, c)
    ensures Grows(g, a, c)
  {
    assert c.stack[..|a.stack|] == c.stack[..|b.stack|][..|a.stack|];
    assert c.sccs[..|a.sccs|] == c.sccs[..|b.sccs|][..|a.sccs|];
    forall i | |a.stack| <= i < |c.stack|
      ensures c.stack[i] < |g.refs| && c.num[c.stack[i]] >= a.index
    {
      if i < |b.stack| {
        assert c.stack[i] == b.stack[i];
      }
    }
  }

  lemma GrowsRefl(g: Graph, a: State)
    requires Sized(g, a) && StackInRange(g, a)
    ensures Grows(g, a, a)
  {
  }

  /** A binding on an earlier stack is still on a grown stack. */
  lemma GrowsKeepsStack(g: Graph, a: State, b: State, z: nat)
    requires Grows(g, a, b) && z in a.stack
    ensures z in b.stack
  {
    var i := StackIndexOf(a, z);
    assert b.stack[i] == b.stack[..|a.stack|][i];
  }

  /** A binding on a grown stack that was visited earlier was already on the stack. */
  lemma GrowsOldOnStack(g: Graph, a: State, b: State, y: nat)
    requires Grows(g, a, b) && y < |g.refs| && y in b.stack && b.num[y] < a.index
    ensures y in a.stack
  {
    var i := StackIndexOf(b, y);
    assert i < |a.stack|;
    assert a.stack[i] == b.stack[..|a.stack|][i];
  }

  // ---------------------------------------------------------------------
  // Push
  // ---------------------------------------------------------------------

  /** Pushing an unvisited candidate gives it the next number. */
  lemma PushNums(g: Graph, s: State, v: nat)
    requires Sized(g, s) && NumOk(g, s)
    requires v < |g.refs| && !g.excluded[v] && s.num[v] < 0
    ensures var t := Push(s, v);
      Sized(g, t) && NumOk(g, t)
  {
  }

  /** Pushing an unvisited candidate keeps the stack in visit order. */
  lemma PushStack(g: Graph, s: State, v: nat)
    requires Sized(g, s) && NumOk(g, s) && StackInRange(g, s) && StackOrdered(g, s) && StackMirror(g, s)
    requires v < |g.refs| && s.num[v] < 0
    ensures var t := Push(s, v);
      Sized(g, t) && StackInRange(g, t) && StackOrdered(g, t) && StackMirror(g, t)
  {
    var t := Push(s, v);
    assert forall i :: 0 <= i < |s.stack| ==> t.stack[i] == s.stack[i] && s.stack[i] != v;
    assert StackInRange(g, t);
    assert StackOrdered(g, t);
    assert v !in s.stack;
    forall u | 0 <= u < |g.refs|
      ensures t.onStack[u] <==> u in t.stack
    {
      if u != v {
        assert s.onStack[u] <==> u in s.stack;
      }
    }
  }

  lemma PushGrayOk(g: Graph, s: State, gray: seq<nat>, v: nat)
    requires Sized(g, s) && NumOk(g, s) && StackInRange(g, s) && StackMirror(g, s)
    requires GrayInRange(g, gray) && GrayOnStack(g, s, gray) && GrayOrdered(g, s, gray)
    requires v < |g.refs| && s.num[v] < 0
    ensures var t := Push(s, v);
      GrayInRange(g, gray + [v]) && GrayOnStack(g, t, gray + [v]) && GrayOrdered(g, t, gray + [v])
  {
    var gray' := gray + [v];
    assert gray'[|gray|] == v;
    assert forall k :: 0 <= k < |gray| ==> gray'[k] == gray[k];
    forall k | 0 <= k < |gray|
      ensures 0 <= s.num[gray[k]] < s.index
    {
      assert gray[k] in s.stack;
    }
  }

  /** Pushing changes no component. */
  lemma PushComponents(g: Graph, s: State, v: nat)
    requires Sized(g, s) && DoneOk(g, s) && SccsOk(g, s) && DoneClosed(g, s) && DoneSccs(g, s)
    requires v < |g.refs| && s.num[v] < 0
    ensures var t := Push(s, v);
      DoneOk(g, t) && SccsOk(g, t) && DoneClosed(g, t) && DoneSccs(g, t)
  {
    var t := Push(s, v);
    assert t.sccId == s.sccId && t.sccs == s.sccs;
    forall u | 0 <= u < |g.refs|
      ensures -1 <= t.sccId[u] < |t.sccs| && (t.sccId[u] >= 0 <==> t.num[u] >= 0 && !t.onStack[u])
    {
      if u != v {
        assert t.num[u] == s.num[u] && t.onStack[u] == s.onStack[u];
      }
    }
  }

  lemma PushGrows(g: Graph, s: State, v: nat)
    requires Sized(g, s)
    requires v < |g.refs| && s.num[v] < 0
    ensures Grows(g, s, Push(s, v))
  {
    assert Push(s, v).stack[..|s.stack|] == s.stack;
  }

  lemma PushStackReach(g: Graph, s: State, gray: seq<nat>, v: nat)
    requires Sized(g, s) && NumOk(g, s) && StackInRange(g, s) && GrayInRange(g, gray)
    requires StackReach(g, s) && GrayBase(g, s, gray) && GrayReach(g, s, gray)
    requires v < |g.refs| && !g.excluded[v] && s.num[v] < 0
    requires |gray| > 0 ==> Edge(g, gray[|gray| - 1], v)
    ensures StackReach(g, Push(s, v))
  {
    var t := Push(s, v);
    forall j | 0 < j < |t.stack|
      ensures CReach(g, t.stack[j - 1], t.stack[j])
    {
      if j == |s.stack| {
        // Everything already on the stack reaches the newest running call, hence v.
        var x := s.stack[j - 1];
        var p := gray[|gray| - 1];
        assert CReach(g, x, p);
        CReachStep(g, x, p, v);
      } else {
        assert t.stack[j - 1] == s.stack[j - 1] && t.stack[j] == s.stack[j];
      }
    }
  }

  /** The running calls are visited bindings. */
  predicate GrayVisited(g: Graph, s: State, gray: seq<nat>)
    requires Sized(g, s) && GrayInRange(g, gray)
  {
    forall k :: 0 <= k < |gray| ==> 0 <= s.num[gray[k]] < s.index
  }

  lemma GrayIsVisited(g: Graph, s: State, gray: seq<nat>)
    requires Sized(g, s) && NumOk(g, s) && StackInRange(g, s) && StackMirror(g, s)
    requires GrayInRange(g, gray) && GrayOnStack(g, s, gray)
    ensures GrayVisited(g, s, gray)
  {
    forall k | 0 <= k < |gray|
      ensures 0 <= s.num[gray[k]]
    {
      assert gray[k] in s.stack;
    }
  }

  lemma PushGrayBase(g: Graph, s: State, gray: seq<nat>, v: nat)
    requires Sized(g, s) && StackInRange(g, s) && GrayInRange(g, gray) && GrayVisited(g, s, gray)
    requires GrayBase(g, s, gray)
    requires v < |g.refs| && s.num[v] < 0
    ensures var t := Push(s, v);
      Sized(g, t) && StackInRange(g, t) && GrayInRange(g, gray + [v]) && GrayBase(g, t, gray + [v])
  {
    var t := Push(s, v);
    var gray' := gray + [v];
    assert gray'[|gray|] == v;
    assert forall i :: 0 <= i < |s.stack| ==> t.stack[i] == s.stack[i];
    forall i | 0 <= i < |t.stack|
      ensures t.num[gray'[0]] <= t.num[t.stack[i]]
    {
      if i < |s.stack| {
        assert gray'[0] == gray[0];
        assert s.num[gray[0]] <= s.num[s.stack[i]];
      } else if |gray| > 0 {
        assert gray'[0] == gray[0];
      }
    }
  }

  lemma PushGrayReach(g: Graph, s: State, gray: seq<nat>, v: nat)
    requires Sized(g, s) && v < |g.refs| && !g.excluded[v] && s.num[v] < 0
    requires StackReach(g, Push(s, v))
    ensures GrayReach(g, Push(s, v), gray + [v])
  {
    var t := Push(s, v);
    var gray' := gray + [v];
    assert gray'[|gray'| - 1] == v;
    forall i | 0 <= i < |t.stack|
      ensures CReach(g, t.stack[i], v)
    {
      if i == |s.stack| {
        CReachRefl(g, v);
      } else {
        assert t.stack[|s.stack|] == v;
        StackReaches(g, t, i, |s.stack|);
      }
    }
  }

  lemma PushGrayChain(g: Graph, s: State, gray: seq<nat>, v: nat)
    requires Sized(g, s) && StackInRange(g, s) && GrayInRange(g, gray) && GrayVisited(g, s, gray)
    requires GrayReach(g, s, gray) && GrayChain(g, s, gray)
    requires v < |g.refs| && s.num[v] < 0
    requires NumOk(g, s)
    ensures var t := Push(s, v);
      Sized(g, t) && StackInRange(g, t) && GrayInRange(g, gray + [v]) && GrayChain(g, t, gray + [v])
  {
    var t := Push(s, v);
    var gray' := gray + [v];
    assert gray'[|gray|] == v;
    assert forall i :: 0 <= i < |s.stack| ==> t.stack[i] == s.stack[i];
    forall k | 0 <= k < |gray'| - 1
      ensures ChainLink(g, t, gray'[k], gray'[k + 1])
    {
      assert gray'[k] == gray[k];
      forall i | 0 <= i < |t.stack| && t.num[t.stack[i]] < t.num[gray'[k + 1]]
        ensures CReach(g, t.stack[i], gray'[k])
      {
        assert i < |s.stack|;
        if k + 1 < |gray| {
          assert gray'[k + 1] == gray[k + 1];
          assert ChainLink(g, s, gray[k], gray[k + 1]);
        } else {
          assert CReach(g, s.stack[i], gray[|gray| - 1]);
        }
      }
    }
  }

  lemma PushInv(g: Graph, s: State, gray: seq<nat>, v: nat)
    requires Inv(g, s, gray)
    requires v < |g.refs| && !g.excluded[v] && s.num[v] < 0
    requires |gray| > 0 ==> Edge(g, gray[|gray| - 1], v)
    ensures Inv(g, Push(s, v), gray + [v])
    ensures Grows(g, s, Push(s, v))
  {
    PushNums(g, s, v);
    PushStack(g, s, v);
    PushGrayOk(g, s, gray, v);
    PushComponents(g, s, v);
    PushGrows(g, s, v);
    PushStackReach(g, s, gray, v);
    GrayIsVisited(g, s, gray);
    PushGrayBase(g, s, gray, v);
    PushGrayReach(g, s, gray, v);
    PushGrayChain(g, s, gray, v);
  }

  // ---------------------------------------------------------------------
  // The neighbour loop of `strongconnect(v)`
  // ---------------------------------------------------------------------

  /** `lowlink[v] = min(lowlink[v], x)`. */
  function Lower(s: State, v: nat, x: int): State
    requires v < |s.low|
  {
    s.(low := s.low[v := if x < s.low[v] then x else s.low[v]])
  }

  /** The low values of bindings visited in `a` are untouched in `b`. */
  predicate LowFrame(g: Graph, a: State, b: State)
    requires Sized(g, a) && Sized(g, b)
  {
    forall u :: 0 <= u < |g.refs| && a.num[u] >= 0 ==> b.low[u] == a.low[u]
  }

  /**
   * The loop invariant of `strongconnect(v)` after its first `k` neighbours,
   * where `s0` is the state when the call began.
   */
  ghost predicate InLoop(g: Graph, s0: State, s: State, gray: seq<nat>, v: nat, k: nat) {
    && v < |g.refs| && k <= |g.refs[v]|
    && Sized(g, s0) && s0.num[v] < 0
    && Inv(g, s, gray + [v])
    && Grows(g, Push(s0, v), s)
    && LowFrame(g, s0, s)
    && s.onStack[v]
    && LowWitness(g, s, v)
    && Frontier(g, s, v, k)
  }

  /**
   * What a finished call `strongconnect(v)` started in `a` guarantees in the
   * final state `b`: either `v` closed its component (and the stack is as
   * it was), or `v` stays on the stack with a low value below its number
   * that names a stack binding it reaches.
   */
  ghost predicate Finished(g: Graph, a: State, b: State, gray: seq<nat>, v: nat) {
    && Inv(g, b, gray)
    && Grows(g, a, b)
    && v < |g.refs|
    && LowFrame(g, a, b)
    && b.num[v] == a.index
    && b.low[v] <= b.num[v]
    && (b.sccId[v] >= 0 ==> b.low[v] == b.num[v] && b.stack == a.stack)
    && (b.sccId[v] < 0 ==> b.onStack[v] && LowWitness(g, b, v) && b.low[v] < b.num[v])
    && Frontier(g, b, v, |g.refs[v]|)
  }

  lemma InvIgnoresLow(g: Graph, s: State, gray: seq<nat>, low: seq<int>)
    requires Inv(g, s, gray) && |low| == |s.low|
    ensures Inv(g, s.(low := low), gray)
  {
    StackIgnoresLow(g, s, low);
    GrayIgnoresLow(g, s, gray, low);
  }

  lemma StackIgnoresLow(g: Graph, s: State, low: seq<int>)
    requires Sized(g, s) && NumOk(g, s) && StackInRange(g, s) && StackOrdered(g, s)
    requires StackMirror(g, s) && DoneOk(g, s) && SccsOk(g, s) && DoneClosed(g, s) && DoneSccs(g, s)
    requires |low| == |s.low|
    ensures var t := s.(low := low);
      && Sized(g, t) && NumOk(g, t) && StackInRange(g, t) && StackOrdered(g, t)
      && StackMirror(g, t) && DoneOk(g, t) && SccsOk(g, t) && DoneClosed(g, t) && DoneSccs(g, t)
  {
  }

  lemma GrayIgnoresLow(g: Graph, s: State, gray: seq<nat>, low: seq<int>)
    requires Sized(g, s) && StackInRange(g, s) && StackReach(g, s) && GrayInRange(g, gray)
    requires GrayOnStack(g, s, gray) && GrayOrdered(g, s, gray) && GrayBase(g, s, gray)
    requires GrayReach(g, s, gray) && GrayChain(g, s, gray)
    requires |low| == |s.low|
    ensures var t := s.(low := low);
      && Sized(g, t) && StackInRange(g, t) && StackReach(g, t)
      && GrayOnStack(g, t, gray) && GrayOrdered(g, t, gray) && GrayBase(g, t, gray)
      && GrayReach(g, t, gray) && GrayChain(g, t, gray)
  {
  }

  lemma GrowsIgnoresLow(g: Graph, a: State, b: State, low: seq<int>)
    requires Grows(g, a, b) && |low| == |b.low|
    ensures Grows(g, a, b.(low := low))
  {
  }

  lemma UnvisitedShrinks(g: Graph, s0: State, s: State, v: nat)
    requires Sized(g, s0) && v < |g.refs| && s0.num[v] < 0
    requires Grows(g, Push(s0, v), s)
    ensures Unvisited(s) < Unvisited(s0)
  {
    assert v in Unvisited(s0) - Unvisited(s);
  }

  lemma LoopStart(g: Graph, s0: State, gray: seq<nat>, v: nat)
    requires Inv(g, s0, gray)
    requires v < |g.refs| && !g.excluded[v] && s0.num[v] < 0
    requires |gray| > 0 ==> Edge(g, gray[|gray| - 1], v)
    ensures InLoop(g, s0, Push(s0, v), gray, v, 0)
    ensures Grows(g, s0, Push(s0, v))
  {
    var t := Push(s0, v);
    PushInv(g, s0, gray, v);
    GrowsRefl(g, t);
    CReachRefl(g, v);
    assert LowWitness(g, t, v);
    assert forall y :: 0 <= y < |g.refs| && y != v ==> t.num[y] < t.num[v];
  }

  /** Skipping an excluded or finished neighbour extends the frontier. */
  lemma SkipFrontier(g: Graph, s: State, v: nat, k: nat)
    requires Sized(g, s) && v < |g.refs| && k < |g.refs[v]| && Frontier(g, s, v, k)
    requires g.excluded[g.refs[v][k]] || s.sccId[g.refs[v][k]] >= 0
    requires s.sccId[g.refs[v][k]] >= 0 ==> s.num[g.refs[v][k]] >= 0
    ensures Frontier(g, s, v, k + 1)
  {
    var w := g.refs[v][k];
    assert g.refs[v][..k + 1] == g.refs[v][..k] + [w];
    forall y: nat, x: nat | y < |g.refs| && s.onStack[y] && s.num[y] >= s.num[v] && Edge(g, y, x)
                            && (y == v ==> x in g.refs[v][..k + 1])
      ensures s.num[x] >= 0 && (s.sccId[x] >= 0 || s.num[x] >= s.low[v])
    {
      if y == v && x !in g.refs[v][..k] {
        assert x == w;
      }
    }
  }

  /** A neighbour that is excluded, or visited and already in a component, changes nothing. */
  lemma LoopSkip(g: Graph, s0: State, s: State, gray: seq<nat>, v: nat, k: nat)
    requires InLoop(g, s0, s, gray, v, k) && k < |g.refs[v]|
    requires g.excluded[g.refs[v][k]] || (s.num[g.refs[v][k]] >= 0 && !s.onStack[g.refs[v][k]])
    ensures InLoop(g, s0, s, gray, v, k + 1)
  {
    SkipFrontier(g, s, v, k);
  }

  /** Meeting a neighbour with number `num[w]` extends the frontier once `low[v]` is lowered to it. */
  lemma BackFrontier(g: Graph, s: State, v: nat, k: nat)
    requires Sized(g, s) && v < |g.refs| && k < |g.refs[v]| && Frontier(g, s, v, k)
    requires s.num[g.refs[v][k]] >= 0
    ensures Frontier(g, Lower(s, v, s.num[g.refs[v][k]]), v, k + 1)
  {
    var w := g.refs[v][k];
    var t := Lower(s, v, s.num[w]);
    assert g.refs[v][..k + 1] == g.refs[v][..k] + [w];
    forall y: nat, x: nat | y < |g.refs| && t.onStack[y] && t.num[y] >= t.num[v] && Edge(g, y, x)
                            && (y == v ==> x in g.refs[v][..k + 1])
      ensures t.num[x] >= 0 && (t.sccId[x] >= 0 || t.num[x] >= t.low[v])
    {
      if x != w && y == v {
        assert x in g.refs[v][..k];
      }
    }
  }

  lemma BackWitness(g: Graph, s: State, v: nat, w: nat)
    requires Sized(g, s) && Edge(g, v, w) && s.onStack[w] && s.num[w] >= 0 && LowWitness(g, s, v)
    ensures LowWitness(g, Lower(s, v, s.num[w]), v)
  {
    var t := Lower(s, v, s.num[w]);
    if s.num[w] < s.low[v] {
      EdgeCReach(g, v, w);
      assert LowWitness(g, t, v);
    } else {
      var z :| 0 <= z < |g.refs| && s.onStack[z] && s.num[z] == s.low[v] && CReach(g, v, z);
      assert LowWitness(g, t, v);
    }
  }

  /** A neighbour still on the stack lowers `low[v]` to its number. */
  lemma LoopBack(g: Graph, s0: State, s: State, gray: seq<nat>, v: nat, k: nat)
    requires InLoop(g, s0, s, gray, v, k) && k < |g.refs[v]|
    requires !g.excluded[g.refs[v][k]] && s.onStack[g.refs[v][k]]
    ensures InLoop(g, s0, Lower(s, v, s.num[g.refs[v][k]]), gray, v, k + 1)
  {
    var w := g.refs[v][k];
    var t := Lower(s, v, s.num[w]);
    InvIgnoresLow(g, s, gray + [v], t.low);
    GrowsIgnoresLow(g, Push(s0, v), s, t.low);
    assert Edge(g, v, w);
    BackWitness(g, s, v, w);
    BackFrontier(g, s, v, k);
    LowerFrame(g, s0, s, v, s.num[w]);
  }

  /** The low witness of `v` survives a recursive call on its neighbour `w`. */
  lemma CallWitness(g: Graph, sa: State, sb: State, v: nat, w: nat)
    requires Grows(g, sa, sb) && StackMirror(g, sa) && StackMirror(g, sb)
    requires Edge(g, v, w) && LowWitness(g, sa, v) && sa.num[v] >= 0 && sa.num[v] < sa.index
    requires sb.low[v] == sa.low[v]
    requires sb.num[w] == sa.index
    requires sb.sccId[w] >= 0 ==> sb.low[w] == sb.num[w]
    requires sb.sccId[w] < 0 ==> LowWitness(g, sb, w)
    ensures LowWitness(g, Lower(sb, v, sb.low[w]), v)
  {
    var t := Lower(sb, v, sb.low[w]);
    if sb.low[w] < sb.low[v] {
      var z :| 0 <= z < |g.refs| && sb.onStack[z] && sb.num[z] == sb.low[w] && CReach(g, w, z);
      EdgeCReach(g, v, w);
      CReachTrans(g, v, w, z);
      assert LowWitness(g, t, v);
    } else {
      var z :| 0 <= z < |g.refs| && sa.onStack[z] && sa.num[z] == sa.low[v] && CReach(g, v, z);
      GrowsKeepsStack(g, sa, sb, z);
      assert LowWitness(g, t, v);
    }
  }

  /** The frontier of `v` extends over its neighbour `w` once `strongconnect(w)` returns. */
  lemma CallFrontier(g: Graph, sa: State, sb: State, v: nat, k: nat)
    requires Grows(g, sa, sb) && StackMirror(g, sa) && StackMirror(g, sb)
    requires v < |g.refs| && k < |g.refs[v]| && sa.num[v] >= 0 && Frontier(g, sa, v, k)
    requires g.refs[v][k] < |g.refs| && sb.num[g.refs[v][k]] == sa.index
    requires sb.low[g.refs[v][k]] <= sb.num[g.refs[v][k]]
    requires Frontier(g, sb, g.refs[v][k], |g.refs[g.refs[v][k]]|)
    requires sb.low[v] == sa.low[v]
    ensures Frontier(g, Lower(sb, v, sb.low[g.refs[v][k]]), v, k + 1)
  {
    var w := g.refs[v][k];
    var t := Lower(sb, v, sb.low[w]);
    assert g.refs[v][..k + 1] == g.refs[v][..k] + [w];
    assert g.refs[w][..|g.refs[w]|] == g.refs[w];
    forall y: nat, x: nat | y < |g.refs| && t.onStack[y] && t.num[y] >= t.num[v] && Edge(g, y, x)
                            && (y == v ==> x in g.refs[v][..k + 1])
      ensures t.num[x] >= 0 && (t.sccId[x] >= 0 || t.num[x] >= t.low[v])
    {
      if sb.num[y] >= sb.num[w] {
        assert sb.num[x] >= 0 && (sb.sccId[x] >= 0 || sb.num[x] >= sb.low[w]);
      } else if x != w {
        assert y in sb.stack;
        GrowsOldOnStack(g, sa, sb, y);
        assert y == v ==> x in g.refs[v][..k];
        assert sa.num[x] >= 0 && (sa.sccId[x] >= 0 || sa.num[x] >= sa.low[v]);
      }
    }
  }

  /** Lowering `low[v]` for a binding `v` unvisited in `s0` keeps the low values of `s0`. */
  lemma LowerFrame(g: Graph, s0: State, s: State, v: nat, x: int)
    requires Sized(g, s0) && Sized(g, s) && v < |g.refs| && s0.num[v] < 0
    requires LowFrame(g, s0, s)
    ensures LowFrame(g, s0, Lower(s, v, x))
  {
  }

  lemma CallFrame(g: Graph, s0: State, sa: State, sb: State, v: nat)
    requires Sized(g, s0) && Sized(g, sb) && v < |g.refs| && s0.num[v] < 0
    requires Grows(g, Push(s0, v), sa) && LowFrame(g, s0, sa) && LowFrame(g, sa, sb)
    ensures LowFrame(g, s0, sb)
  {
  }

  lemma LoopCall(g: Graph, s0: State, sa: State, sb: State, gray: seq<nat>, v: nat, k: nat)
    requires InLoop(g, s0, sa, gray, v, k) && k < |g.refs[v]|
    requires !g.excluded[g.refs[v][k]] && sa.num[g.refs[v][k]] < 0
    requires Finished(g, sa, sb, gray + [v], g.refs[v][k])
    ensures InLoop(g, s0, Lower(sb, v, sb.low[g.refs[v][k]]), gray, v, k + 1)
  {
    var w := g.refs[v][k];
    var t := Lower(sb, v, sb.low[w]);
    InvIgnoresLow(g, sb, gray + [v], t.low);
    GrowsTrans(g, Push(s0, v), sa, sb);
    GrowsIgnoresLow(g, Push(s0, v), sb, t.low);
    assert Edge(g, v, w);
    CallWitness(g, sa, sb, v, w);
    CallFrontier(g, sa, sb, v, k);
    CallFrame(g, s0, sa, sb, v);
    LowerFrame(g, s0, sb, v, sb.low[w]);
    GrowsKeepsStack(g, sa, sb, v);
  }

  // ---------------------------------------------------------------------
  // Leaving `strongconnect(v)` without closing a component
  // ---------------------------------------------------------------------

  /** Dropping the newest running call keeps the facts about the older ones. */
  lemma GrayPrefix(g: Graph, s: State, gray: seq<nat>, v: nat)
    requires Sized(g, s) && StackInRange(g, s) && GrayInRange(g, gray + [v])
    requires GrayOnStack(g, s, gray + [v]) && GrayOrdered(g, s, gray + [v]) && GrayChain(g, s, gray + [v])
    ensures GrayInRange(g, gray) && GrayOnStack(g, s, gray) && GrayOrdered(g, s, gray) && GrayChain(g, s, gray)
  {
    var gray' := gray + [v];
    assert forall k :: 0 <= k < |gray| ==> gray'[k] == gray[k];
  }

  /** A binding whose low value is below its number leaves the stack reaching its caller. */
  lemma KeepGray(g: Graph, s: State, gray: seq<nat>, v: nat)
    requires Sized(g, s) && StackInRange(g, s) && StackMirror(g, s) && GrayInRange(g, gray + [v])
    requires GrayBase(g, s, gray + [v]) && GrayReach(g, s, gray + [v]) && GrayChain(g, s, gray + [v])
    requires LowWitness(g, s, v) && s.low[v] < s.num[v]
    ensures |gray| > 0 && GrayInRange(g, gray)
    ensures GrayBase(g, s, gray) && GrayReach(g, s, gray)
  {
    var gray' := gray + [v];
    assert gray'[|gray|] == v;
    assert forall k :: 0 <= k < |gray| ==> gray'[k] == gray[k];
    var z :| 0 <= z < |g.refs| && s.onStack[z] && s.num[z] == s.low[v] && CReach(g, v, z);
    var iz := StackIndexOf(s, z);
    assert s.num[gray'[0]] <= s.num[s.stack[iz]];
    assert |gray| > 0;
    var p := gray[|gray| - 1];
    assert CReach(g, z, p) by {
      assert s.num[s.stack[iz]] < s.num[gray'[|gray|]];
    }
    forall i | 0 <= i < |s.stack|
      ensures CReach(g, s.stack[i], p)
    {
      var x := s.stack[i];
      if s.num[x] < s.num[v] {
        assert s.num[s.stack[i]] < s.num[gray'[|gray|]];
      } else {
        assert CReach(g, x, v);
        CReachTrans(g, x, v, z);
        CReachTrans(g, x, z, p);
      }
    }
    forall i | 0 <= i < |s.stack|
      ensures s.num[gray[0]] <= s.num[s.stack[i]]
    {
      assert s.num[gray'[0]] <= s.num[s.stack[i]];
    }
  }

  lemma KeepFinished(g: Graph, s0: State, s: State, gray: seq<nat>, v: nat)
    requires v < |g.refs| && InLoop(g, s0, s, gray, v, |g.refs[v]|)
    requires s.low[v] != s.num[v]
    ensures Finished(g, s0, s, gray, v)
  {
    assert s.low[v] < s.num[v];
    KeepGray(g, s, gray, v);
    GrayPrefix(g, s, gray, v);
    PushGrows(g, s0, v);
    GrowsTrans(g, s0, Push(s0, v), s);
    assert s.num[v] == s0.index;
  }

  // ---------------------------------------------------------------------
  // Popping the component rooted at `v`
  // ---------------------------------------------------------------------

  /** `s2` is `s1` with the stack cut down to its first `pos` entries, and numbers unchanged. */
  predicate Cut(g: Graph, s1: State, s2: State, pos: nat) {
    && Sized(g, s1) && Sized(g, s2) && pos < |s1.stack|
    && s2.num == s1.num && s2.low == s1.low && s2.index == s1.index
    && s2.stack == s1.stack[..pos]
  }

  /** `s2` is `s1` with the stack from `pos` up popped into a new component. */
  ghost predicate PoppedFrom(g: Graph, s1: State, s2: State, pos: nat) {
    && Cut(g, s1, s2, pos)
    && |s2.sccs| == |s1.sccs| + 1 && s2.sccs[..|s1.sccs|] == s1.sccs
    && |s2.sccs[|s1.sccs|]| == |s1.stack| - pos
    && (forall i :: 0 <= i < |s1.stack| - pos ==> s2.sccs[|s1.sccs|][i] == s1.stack[|s1.stack| - 1 - i])
    && (forall u :: 0 <= u < |g.refs| ==> s2.onStack[u] == (s1.onStack[u] && u !in s1.stack[pos..]))
    && (forall u :: 0 <= u < |g.refs| ==> s2.sccId[u] == if u in s1.stack[pos..] then |s1.sccs| else s1.sccId[u])
  }

  /** Partway through the pop loop: the stack is cut down to `top` entries, the popped ones listed in `comp`. */
  ghost predicate Popping(g: Graph, s1: State, s: State, comp: seq<nat>, top: nat) {
    && Sized(g, s1) && Sized(g, s) && top <= |s1.stack|
    && s.num == s1.num && s.low == s1.low && s.index == s1.index && s.sccs == s1.sccs
    && s.stack == s1.stack[..top]
    && |comp| == |s1.stack| - top
    && (forall i :: 0 <= i < |comp| ==> comp[i] == s1.stack[|s1.stack| - 1 - i])
    && (forall u :: 0 <= u < |g.refs| ==> s.onStack[u] == (s1.onStack[u] && u !in s1.stack[top..]))
    && (forall u :: 0 <= u < |g.refs| ==> s.sccId[u] == if u in s1.stack[top..] then |s1.sccs| else s1.sccId[u])
  }

  lemma PoppingStart(g: Graph, s1: State)
    requires Sized(g, s1)
    ensures Popping(g, s1, s1, [], |s1.stack|)
  {
  }

  lemma PoppingStep(g: Graph, s1: State, s: State, comp: seq<nat>, top: nat)
    requires Popping(g, s1, s, comp, top) && top > 0
    requires s1.stack[top - 1] < |g.refs|
    ensures var w := s1.stack[top - 1];
      Popping(g, s1, s.(stack := s.stack[..top - 1], onStack := s.onStack[w := false],
                        sccId := s.sccId[w := |s1.sccs|]), comp + [w], top - 1)
  {
    var w := s1.stack[top - 1];
    assert s1.stack[top - 1..] == [w] + s1.stack[top..];
  }

  lemma PoppingDone(g: Graph, s1: State, s: State, comp: seq<nat>, pos: nat)
    requires Popping(g, s1, s, comp, pos) && pos < |s1.stack|
    ensures PoppedFrom(g, s1, s.(sccs := s.sccs + [comp]), pos)
  {
    var s2 := s.(sccs := s.sccs + [comp]);
    assert s2.sccs[..|s1.sccs|] == s1.sccs;
  }

  ghost function Top(s: State, pos: nat): set<nat>
    requires pos <= |s.stack|
  {
    set u: nat | u in s.stack[pos..]
  }

  ghost function DoneSet(g: Graph, s: State): set<nat>
    requires Sized(g, s)
  {
    set u: nat | u < |g.refs| && s.sccId[u] >= 0
  }

  /** Every binding from stack position `pos` up was visited no earlier than `stack[pos]`. */
  lemma TopNums(g: Graph, s: State, pos: nat)
    requires Sized(g, s) && StackInRange(g, s) && StackOrdered(g, s) && pos < |s.stack|
    ensures forall u :: u in s.stack[pos..] ==> u < |g.refs| && s.num[u] >= s.num[s.stack[pos]]
  {
    forall u | u in s.stack[pos..]
      ensures u < |g.refs| && s.num[u] >= s.num[s.stack[pos]]
    {
      var j :| 0 <= j < |s.stack[pos..]| && s.stack[pos..][j] == u;
      assert s.stack[pos + j] == u;
      if j > 0 {
        StackIncreasing(g, s, pos, pos + j);
      }
    }
  }

  /** The stack from position `pos` up holds exactly the stack bindings visited no earlier than `stack[pos]`. */
  lemma TopChar(g: Graph, s: State, pos: nat)
    requires Sized(g, s) && StackInRange(g, s) && StackOrdered(g, s) && StackMirror(g, s) && pos < |s.stack|
    ensures forall u :: 0 <= u < |g.refs| ==>
      (u in s.stack[pos..] <==> s.onStack[u] && s.num[u] >= s.num[s.stack[pos]])
  {
    TopNums(g, s, pos);
    forall u | 0 <= u < |g.refs| && s.onStack[u] && s.num[u] >= s.num[s.stack[pos]]
      ensures u in s.stack[pos..]
    {
      var i := StackIndexOf(s, u);
      StackOrder(g, s, pos, i);
      assert s.stack[pos..][i - pos] == u;
    }
    forall u | 0 <= u < |g.refs| && u in s.stack[pos..]
      ensures s.onStack[u]
    {
      var j :| 0 <= j < |s.stack[pos..]| && s.stack[pos..][j] == u;
      assert s.stack[pos + j] == u;
    }
  }

  /** A stack binding below position `pos` is not at or above it. */
  lemma StackSplit(g: Graph, s: State, pos: nat)
    requires Sized(g, s) && StackInRange(g, s) && StackOrdered(g, s) && pos <= |s.stack|
    ensures forall u :: u in s.stack ==> (u in s.stack[..pos] <==> u !in s.stack[pos..])
  {
    assert s.stack == s.stack[..pos] + s.stack[pos..];
    forall u | u in s.stack[..pos]
      ensures u !in s.stack[pos..]
    {
      var i :| 0 <= i < pos && s.stack[..pos][i] == u;
      assert s.stack[i] == u;
      forall j | pos <= j < |s.stack|
        ensures s.num[s.stack[i]] < s.num[s.stack[j]]
      {
        StackIncreasing(g, s, i, j);
      }
      assert forall j :: 0 <= j < |s.stack| - pos ==> s.stack[pos..][j] == s.stack[pos + j];
    }
  }

  /** Edges out of the popped part of the stack stay in it or enter finished components. */
  lemma TopEdges(g: Graph, s: State, pos: nat)
    requires Sized(g, s) && NumOk(g, s) && StackInRange(g, s) && StackOrdered(g, s) && StackMirror(g, s) && DoneOk(g, s)
    requires pos < |s.stack|
    requires Frontier(g, s, s.stack[pos], |g.refs[s.stack[pos]]|)
    requires s.low[s.stack[pos]] == s.num[s.stack[pos]]
    ensures forall x, y :: x in Top(s, pos) && x < |g.refs| && y in g.refs[x] && Open(g.refs, g.excluded, y) ==>
      y in Top(s, pos) || y in DoneSet(g, s)
  {
    var v := s.stack[pos];
    TopChar(g, s, pos);
    assert g.refs[v][..|g.refs[v]|] == g.refs[v];
    forall x, y | x in Top(s, pos) && x < |g.refs| && y in g.refs[x] && Open(g.refs, g.excluded, y)
      ensures y in Top(s, pos) || y in DoneSet(g, s)
    {
      assert x in s.stack[pos..];
      assert Edge(g, x, y);
      assert s.num[y] >= 0 && (s.sccId[y] >= 0 || s.num[y] >= s.low[v]);
    }
  }

  lemma DoneSetClosed(g: Graph, s: State)
    requires Sized(g, s) && NumOk(g, s) && DoneOk(g, s) && DoneClosed(g, s)
    ensures forall x, y :: x in DoneSet(g, s) && x < |g.refs| && y in g.refs[x] && Open(g.refs, g.excluded, y) ==>
      y in DoneSet(g, s)
  {
    forall x, y | x in DoneSet(g, s) && x < |g.refs| && y in g.refs[x] && Open(g.refs, g.excluded, y)
      ensures y in DoneSet(g, s)
    {
      assert Edge(g, x, y);
    }
  }

  /** Nothing reachable from a finished binding is unfinished. */
  lemma DoneReach(g: Graph, s: State, u: nat, w: nat)
    requires Sized(g, s) && NumOk(g, s) && DoneOk(g, s) && DoneClosed(g, s)
    requires CReach(g, u, w)
    ensures u in DoneSet(g, s) ==> w in DoneSet(g, s)
  {
    if u in DoneSet(g, s) {
      DoneSetClosed(g, s);
      ReachStaysIn(g.refs, g.excluded, DoneSet(g, s), {}, u, w);
    }
  }

  /** The popped bindings are exactly the component of `v`. */
  lemma TopMutual(g: Graph, s: State, gray: seq<nat>, v: nat, pos: nat)
    requires Sized(g, s) && NumOk(g, s) && StackInRange(g, s) && StackOrdered(g, s) && StackMirror(g, s)
    requires DoneOk(g, s) && DoneClosed(g, s) && StackReach(g, s) && GrayReach(g, s, gray + [v])
    requires pos < |s.stack| && s.stack[pos] == v
    requires Frontier(g, s, v, |g.refs[v]|) && s.low[v] == s.num[v]
    ensures forall x :: x in Top(s, pos) ==> Mutual(g, x, v)
    ensures forall w: nat :: Mutual(g, v, w) ==> w in Top(s, pos)
  {
    var top := Top(s, pos);
    var done := DoneSet(g, s);
    TopNums(g, s, pos);
    TopEdges(g, s, pos);
    DoneSetClosed(g, s);
    assert v in s.stack[pos..];
    forall x | x in top
      ensures Mutual(g, x, v)
    {
      assert x in s.stack[pos..];
      StackReachByNum(g, s, v, x);
      var i := StackIndexOf(s, x);
      assert CReach(g, s.stack[i], (gray + [v])[|gray|]);
    }
    forall w: nat | Mutual(g, v, w)
      ensures w in top
    {
      ReachStaysIn(g.refs, g.excluded, top, done, v, w);
      DoneReach(g, s, w, v);
      assert v !in done;
    }
  }

  lemma PopStack(g: Graph, s1: State, s2: State, pos: nat)
    requires PoppedFrom(g, s1, s2, pos)
    requires StackInRange(g, s1) && StackOrdered(g, s1) && StackMirror(g, s1) && StackReach(g, s1)
    ensures StackInRange(g, s2) && StackOrdered(g, s2) && StackMirror(g, s2) && StackReach(g, s2)
  {
    StackSplit(g, s1, pos);
    assert s1.stack == s1.stack[..pos] + s1.stack[pos..];
    forall j | 0 < j < |s2.stack|
      ensures CReach(g, s2.stack[j - 1], s2.stack[j])
    {
      assert s2.stack[j - 1] == s1.stack[j - 1] && s2.stack[j] == s1.stack[j];
    }
  }

  /** The new component lists the popped bindings without repetition. */
  lemma NewComponent(g: Graph, s1: State, s2: State, pos: nat)
    requires PoppedFrom(g, s1, s2, pos)
    requires StackInRange(g, s1) && StackOrdered(g, s1)
    ensures var comp := s2.sccs[|s1.sccs|];
      && (forall i :: 0 <= i < |comp| ==> comp[i] < |g.refs| && comp[i] in s1.stack[pos..])
      && (forall i, j :: 0 <= i < j < |comp| ==> comp[i] != comp[j])
      && (forall u :: u in s1.stack[pos..] ==> u in comp)
  {
    var comp := s2.sccs[|s1.sccs|];
    var n := |s1.stack|;
    forall i | 0 <= i < |comp|
      ensures comp[i] < |g.refs| && comp[i] in s1.stack[pos..]
    {
      assert s1.stack[pos..][n - 1 - i - pos] == comp[i];
    }
    forall i, j | 0 <= i < j < |comp|
      ensures comp[i] != comp[j]
    {
      StackIncreasing(g, s1, n - 1 - j, n - 1 - i);
    }
    forall u | u in s1.stack[pos..]
      ensures u in comp
    {
      var j :| 0 <= j < |s1.stack[pos..]| && s1.stack[pos..][j] == u;
      assert comp[n - 1 - pos - j] == u;
    }
  }

  lemma PopDone(g: Graph, s1: State, s2: State, pos: nat)
    requires PoppedFrom(g, s1, s2, pos)
    requires StackInRange(g, s1) && StackOrdered(g, s1) && DoneOk(g, s1)
    ensures DoneOk(g, s2)
  {
    TopNums(g, s1, pos);
  }

  /** The component lists: the old ones are untouched, the new one is the popped part of the stack. */
  lemma PopSccsOk(g: Graph, s1: State, s2: State, pos: nat)
    requires PoppedFrom(g, s1, s2, pos)
    requires StackInRange(g, s1) && StackOrdered(g, s1) && StackMirror(g, s1) && DoneOk(g, s1) && SccsOk(g, s1)
    ensures SccsOk(g, s2)
  {
    var K := |s1.sccs|;
    NewComponent(g, s1, s2, pos);
    forall c | 0 <= c < |s2.sccs|
      ensures && (forall i :: 0 <= i < |s2.sccs[c]| ==> s2.sccs[c][i] < |g.refs| && s2.sccId[s2.sccs[c][i]] == c)
              && (forall i, j :: 0 <= i < j < |s2.sccs[c]| ==> s2.sccs[c][i] != s2.sccs[c][j])
              && (forall u :: 0 <= u < |g.refs| && s2.sccId[u] == c ==> u in s2.sccs[c])
    {
      if c < K {
        assert s2.sccs[c] == s2.sccs[..K][c] == s1.sccs[c];
        forall i | 0 <= i < |s2.sccs[c]|
          ensures s2.sccId[s2.sccs[c][i]] == c
        {
          var u := s1.sccs[c][i];
          assert s1.sccId[u] == c && !s1.onStack[u];
          assert u !in s1.stack;
          assert s1.stack == s1.stack[..pos] + s1.stack[pos..];
        }
      }
    }
  }

  lemma PopClosed(g: Graph, s1: State, s2: State, pos: nat)
    requires PoppedFrom(g, s1, s2, pos)
    requires DoneOk(g, s1) && DoneClosed(g, s1)
    requires forall x, y :: x in Top(s1, pos) && x < |g.refs| && y in g.refs[x] && Open(g.refs, g.excluded, y) ==>
      y in Top(s1, pos) || y in DoneSet(g, s1)
    ensures DoneClosed(g, s2)
  {
    forall u: nat, w: nat | u < |g.refs| && s2.sccId[u] >= 0 && Edge(g, u, w)
      ensures s2.sccId[w] >= 0
    {
      if u in s1.stack[pos..] {
        assert u in Top(s1, pos);
        assert w in Top(s1, pos) || w in DoneSet(g, s1);
      }
    }
  }

  lemma MutualTrans(g: Graph, u: nat, m: nat, w: nat)
    requires Mutual(g, u, m)
    ensures Mutual(g, m, w) ==> Mutual(g, u, w)
  {
    if Mutual(g, m, w) {
      CReachTrans(g, u, m, w);
      CReachTrans(g, w, m, u);
    }
  }

  lemma PopSccs(g: Graph, s1: State, s2: State, v: nat, pos: nat)
    requires PoppedFrom(g, s1, s2, pos)
    requires StackMirror(g, s1) && DoneOk(g, s1) && DoneSccs(g, s1)
    requires forall x :: x in Top(s1, pos) ==> Mutual(g, x, v)
    requires forall w: nat :: Mutual(g, v, w) ==> w in Top(s1, pos)
    ensures DoneSccs(g, s2)
  {
    forall u, w | 0 <= u < |g.refs| && 0 <= w < |g.refs| && s2.sccId[u] >= 0
      ensures s2.sccId[w] == s2.sccId[u] <==> Mutual(g, u, w)
    {
      if u in s1.stack[pos..] {
        assert Mutual(g, u, v) by { assert u in Top(s1, pos); }
        MutualTrans(g, v, u, w);
        if w in s1.stack[pos..] {
          assert Mutual(g, w, v) by { assert w in Top(s1, pos); }
          MutualTrans(g, u, v, w);
        }
      } else if s1.sccId[w] == s1.sccId[u] {
        assert w !in s1.stack[pos..];
      }
    }
  }

  lemma PopGrayOk(g: Graph, s1: State, s2: State, gray: seq<nat>, v: nat, pos: nat)
    requires PoppedFrom(g, s1, s2, pos)
    requires StackInRange(g, s1) && StackOrdered(g, s1) && s1.stack[pos] == v
    requires GrayInRange(g, gray + [v]) && GrayOnStack(g, s1, gray + [v]) && GrayOrdered(g, s1, gray + [v])
    ensures GrayInRange(g, gray) && GrayOnStack(g, s2, gray) && GrayOrdered(g, s2, gray)
  {
    var gray' := gray + [v];
    assert gray'[|gray|] == v;
    assert forall k :: 0 <= k < |gray| ==> gray'[k] == gray[k];
    TopNums(g, s1, pos);
  }

  lemma PopGrayWitness(g: Graph, s1: State, s2: State, gray: seq<nat>, v: nat, pos: nat)
    requires Cut(g, s1, s2, pos)
    requires StackInRange(g, s1) && StackOrdered(g, s1) && s1.stack[pos] == v
    requires GrayInRange(g, gray + [v]) && GrayBase(g, s1, gray + [v]) && GrayChain(g, s1, gray + [v])
    ensures StackInRange(g, s2) && GrayInRange(g, gray)
    ensures GrayBase(g, s2, gray) && GrayReach(g, s2, gray) && GrayChain(g, s2, gray)
  {
    var gray' := gray + [v];
    assert gray'[|gray|] == v;
    assert forall k :: 0 <= k < |gray| ==> gray'[k] == gray[k];
    assert forall i :: 0 <= i < |s2.stack| ==> s2.stack[i] == s1.stack[i];
    forall i | 0 <= i < pos
      ensures s1.num[s1.stack[i]] < s1.num[v]
    {
      StackIncreasing(g, s1, i, pos);
    }
    if pos > 0 {
      assert s1.num[gray'[0]] <= s1.num[s1.stack[0]];
    }
    forall i | 0 <= i < |s2.stack| && |gray| > 0
      ensures s2.num[gray[0]] <= s2.num[s2.stack[i]]
    {
      assert s1.num[gray'[0]] <= s1.num[s1.stack[i]];
    }
    forall i | 0 <= i < |s2.stack| && |gray| > 0
      ensures CReach(g, s2.stack[i], gray[|gray| - 1])
    {
      assert s1.num[s1.stack[i]] < s1.num[gray'[|gray|]];
    }
    forall k | 0 <= k < |gray| - 1
      ensures ChainLink(g, s2, gray[k], gray[k + 1])
    {
      assert ChainLink(g, s1, gray'[k], gray'[k + 1]);
    }
  }

  lemma PopInv(g: Graph, s1: State, s2: State, gray: seq<nat>, v: nat, pos: nat)
    requires Inv(g, s1, gray + [v])
    requires pos < |s1.stack| && s1.stack[pos] == v
    requires Frontier(g, s1, v, |g.refs[v]|) && s1.low[v] == s1.num[v]
    requires PoppedFrom(g, s1, s2, pos)
    ensures Inv(g, s2, gray)
  {
    TopEdges(g, s1, pos);
    TopMutual(g, s1, gray, v, pos);
    PopStack(g, s1, s2, pos);
    PopDone(g, s1, s2, pos);
    PopSccsOk(g, s1, s2, pos);
    PopClosed(g, s1, s2, pos);
    PopSccs(g, s1, s2, v, pos);
    PopGrayOk(g, s1, s2, gray, v, pos);
    PopGrayWitness(g, s1, s2, gray, v, pos);
  }

  /** Popping back to the stack height at the start of the call loses nothing the call started with. */
  lemma PopGrows(g: Graph, s0: State, s1: State, s2: State)
    requires Grows(g, s0, s1) && StackMirror(g, s1) && DoneOk(g, s1)
    requires |s0.stack| < |s1.stack| && PoppedFrom(g, s1, s2, |s0.stack|)
    ensures Grows(g, s0, s2) && s2.stack == s0.stack
  {
    assert s2.sccs[..|s0.sccs|] == s1.sccs[..|s0.sccs|];
    forall u | 0 <= u < |g.refs| && s0.sccId[u] >= 0
      ensures s2.sccId[u] == s0.sccId[u]
    {
      assert !s1.onStack[u];
      assert u !in s1.stack;
    }
  }

  /** Nothing left on the stack after the pop was visited after `v`. */
  lemma PopFrontier(g: Graph, s1: State, s2: State, v: nat, pos: nat)
    requires PoppedFrom(g, s1, s2, pos)
    requires StackInRange(g, s1) && StackOrdered(g, s1) && StackMirror(g, s1) && s1.stack[pos] == v && v < |g.refs|
    ensures Frontier(g, s2, v, |g.refs[v]|)
  {
    TopChar(g, s1, pos);
    assert forall y :: 0 <= y < |g.refs| && s2.onStack[y] ==> s2.num[y] < s2.num[v];
  }

  /** While `strongconnect(v)` runs, `v` sits on the stack just above what was there when it began. */
  lemma PushedAt(g: Graph, s0: State, s: State, v: nat)
    requires Sized(g, s0) && v < |g.refs| && s0.num[v] < 0 && Grows(g, Push(s0, v), s)
    ensures |s0.stack| < |s.stack| && s.stack[|s0.stack|] == v
  {
    assert s.stack[|s0.stack|] == s.stack[..|s0.stack| + 1][|s0.stack|];
  }

  lemma PopFinished(g: Graph, s0: State, s1: State, s2: State, gray: seq<nat>, v: nat)
    requires v < |g.refs| && InLoop(g, s0, s1, gray, v, |g.refs[v]|)
    requires s1.low[v] == s1.num[v]
    requires PoppedFrom(g, s1, s2, |s0.stack|)
    ensures Finished(g, s0, s2, gray, v)
  {
    var pos := |s0.stack|;
    PushedAt(g, s0, s1, v);
    PopInv(g, s1, s2, gray, v, pos);
    PushGrows(g, s0, v);
    GrowsTrans(g, s0, Push(s0, v), s1);
    PopGrows(g, s0, s1, s2);
    PopFrontier(g, s1, s2, v, pos);
    assert v in s1.stack[pos..];
    assert s2.sccId[v] >= 0;
  }

  // ---------------------------------------------------------------------
  // The top-level loop
  // ---------------------------------------------------------------------

  /** With no call running the stack is empty. */
  lemma NoGrayNoStack(g: Graph, s: State)
    requires Inv(g, s, [])
    ensures s.stack == []
  {
  }

  /** A visited binding is finished once no call is running. */
  lemma RootDone(g: Graph, s: State, v: nat)
    requires Inv(g, s, []) && v < |g.refs| && s.num[v] >= 0
    ensures s.sccId[v] >= 0
  {
    assert s.stack == [];
    assert !s.onStack[v];
  }

  /** A call started with no other call running closes the component of its binding. */
  lemma RootFinished(g: Graph, a: State, b: State, v: nat)
    requires Finished(g, a, b, [], v)
    ensures b.sccId[v] >= 0
    ensures forall u :: 0 <= u < |g.refs| && a.sccId[u] >= 0 ==> b.sccId[u] == a.sccId[u]
  {
    RootDone(g, b, v);
  }
}
