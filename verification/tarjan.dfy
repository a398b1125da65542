/**
 * Tarjan's search as `findRemovableBindings` runs it when four or more
 * candidates survive exclusion: the `indices`, `lowlink`, `onStack` and
 * `sccId` typed arrays, the `stack` and `sccs` lists and the `index`
 * counter, updated in place by the recursive `strongconnect` closure.
 */
module Tarjan {
  import opened RefGraph
  import opened TarjanSpec
  import opened Components

  class Search {
    const g: Graph
    const indices: array<int>
    const lowlink: array<int>
    const onStack: array<bool>
    const sccId: array<int>
    var stack: seq<nat>
    var sccs: seq<seq<nat>>
    var index: nat

    predicate Valid()
      reads this
    {
      && WellFormed(g)
      && indices.Length == |g.refs| && lowlink.Length == |g.refs|
      && onStack.Length == |g.refs| && sccId.Length == |g.refs|
      && indices != lowlink && indices != sccId && lowlink != sccId
    }

    /** The search state as a value. */
    ghost function St(): State
      reads this, indices, lowlink, onStack, sccId
    {
      State(indices[..], lowlink[..], onStack[..], sccId[..], stack, sccs, index)
    }

    /** `indices` filled with -1, `lowlink` with 0, nothing on the stack, no component. */
    constructor (g: Graph)
      requires WellFormed(g)
      ensures Valid() && this.g == g && St() == Initial(|g.refs|) && Inv(g, St(), [])
      ensures fresh(indices) && fresh(lowlink) && fresh(onStack) && fresh(sccId)
    {
      this.g := g;
      var n := |g.refs|;
      indices := new int[n](_ => -1);
      lowlink := new int[n](_ => 0);
      onStack := new bool[n](_ => false);
      sccId := new int[n](_ => -1);
      stack := [];
      sccs := [];
      index := 0;
      InitialInv(g);
    }

    /** The first lines of `strongconnect(v)`: number `v`, push it and mark it on the stack. */
    method Visit(v: nat)
      requires Valid() && v < |g.refs|
      modifies this, indices, lowlink, onStack
      ensures Valid() && St() == Push(old(St()), v)
    {
      indices[v] := index;
      lowlink[v] := index;
      index := index + 1;
      stack := stack + [v];
      onStack[v] := true;
    }

    /** Entering `strongconnect(v)`: after numbering and pushing `v`, its neighbour loop can start. */
    method Enter(v: nat, ghost gray: seq<nat>)
      requires Valid() && Inv(g, St(), gray)
      requires v < |g.refs| && !g.excluded[v] && indices[v] == -1
      requires |gray| > 0 ==> Edge(g, gray[|gray| - 1], v)
      modifies this, indices, lowlink, onStack
      ensures Valid() && InLoop(g, old(St()), St(), gray, v, 0)
    {
      ghost var s0 := St();
      Visit(v);
      LoopStart(g, s0, gray, v);
    }

    /** `lowlink[v] = min(lowlink[v], x)`. */
    method LowerLink(v: nat, x: int)
      requires Valid() && v < |g.refs|
      modifies lowlink
      ensures Valid() && St() == Lower(old(St()), v, x)
    {
      if x < lowlink[v] {
        lowlink[v] := x;
      }
    }

    /** One turn of the pop loop: pop `w`, clear its stack mark and give it the component id `c`. */
    method PopOne(c: nat) returns (w: nat)
      requires Valid() && |stack| > 0 && stack[|stack| - 1] < |g.refs|
      modifies this, onStack, sccId
      ensures Valid() && w == old(stack[|stack| - 1])
      ensures St() == old(St()).(stack := old(stack[..|stack| - 1]), onStack := old(onStack[..])[w := false],
                                  sccId := old(sccId[..])[w := c])
    {
      w := stack[|stack| - 1];
      stack := stack[..|stack| - 1];
      onStack[w] := false;
      sccId[w] := c;
    }

    /**
     * `strongconnect(v)`: number and push `v`, walk its neighbours, and pop
     * a component when `v` turns out to be its root.
     */
    method StrongConnect(v: nat, ghost gray: seq<nat>)
      requires Valid() && Inv(g, St(), gray)
      requires v < |g.refs| && !g.excluded[v] && indices[v] == -1
      requires |gray| > 0 ==> Edge(g, gray[|gray| - 1], v)
      modifies this, indices, lowlink, onStack, sccId
      ensures Valid() && Finished(g, old(St()), St(), gray, v)
      decreases Unvisited(St()), 1
    {
      ghost var s0 := St();
      Enter(v, gray);
      Scan(v, s0, gray);
      if lowlink[v] == indices[v] {
        PopComponent(v, s0, gray);
      } else {
        KeepFinished(g, s0, St(), gray, v);
      }
    }

    /** The neighbour loop of `strongconnect(v)`. */
    method Scan(v: nat, ghost s0: State, ghost gray: seq<nat>)
      requires Valid() && InLoop(g, s0, St(), gray, v, 0)
      modifies this, indices, lowlink, onStack, sccId
      ensures Valid() && InLoop(g, s0, St(), gray, v, |g.refs[v]|)
      decreases Unvisited(s0), 0
    {
      var k := 0;
      while k < |g.refs[v]|
        invariant Valid() && k <= |g.refs[v]|
        invariant InLoop(g, s0, St(), gray, v, k)
      {
        UnvisitedShrinks(g, s0, St(), v);
        Neighbour(v, k, s0, gray);
        k := k + 1;
      }
    }

    /** One turn of the neighbour loop of `strongconnect(v)`: the neighbour `refs[v][k]`. */
    method Neighbour(v: nat, k: nat, ghost s0: State, ghost gray: seq<nat>)
      requires Valid() && v < |g.refs| && k < |g.refs[v]|
      requires InLoop(g, s0, St(), gray, v, k)
      modifies this, indices, lowlink, onStack, sccId
      ensures Valid() && InLoop(g, s0, St(), gray, v, k + 1)
      decreases Unvisited(St()), 3
    {
      var w := g.refs[v][k];
      if g.excluded[w] {
        LoopSkip(g, s0, St(), gray, v, k);
      } else if indices[w] == -1 {
        Descend(v, k, s0, gray);
      } else if onStack[w] {
        ghost var sa := St();
        LowerLink(v, indices[w]);
        LoopBack(g, s0, sa, gray, v, k);
      } else {
        LoopSkip(g, s0, St(), gray, v, k);
      }
    }

    /** A neighbour not yet visited: recurse into it, then take its low value. */
    method Descend(v: nat, k: nat, ghost s0: State, ghost gray: seq<nat>)
      requires Valid() && v < |g.refs| && k < |g.refs[v]|
      requires InLoop(g, s0, St(), gray, v, k)
      requires !g.excluded[g.refs[v][k]] && indices[g.refs[v][k]] == -1
      modifies this, indices, lowlink, onStack, sccId
      ensures Valid() && InLoop(g, s0, St(), gray, v, k + 1)
      decreases Unvisited(St()), 2
    {
      var w := g.refs[v][k];
      ghost var sa := St();
      assert Edge(g, v, w);
      StrongConnect(w, gray + [v]);
      ghost var sb := St();
      LowerLink(v, lowlink[w]);
      LoopCall(g, s0, sa, sb, gray, v, k);
    }

    /** The end of `strongconnect(v)` for a root `v`: pop the stack down to `v` into a new component. */
    method PopComponent(v: nat, ghost s0: State, ghost gray: seq<nat>)
      requires Valid() && v < |g.refs|
      requires InLoop(g, s0, St(), gray, v, |g.refs[v]|) && lowlink[v] == indices[v]
      modifies this, onStack, sccId
      ensures Valid() && Finished(g, s0, St(), gray, v)
    {
      ghost var s1 := St();
      PushedAt(g, s0, s1, v);
      PopDownTo(v, |s0.stack|);
      PopFinished(g, s0, s1, St(), gray, v);
    }

    /** Pop the stack down to `v`, which sits at position `pos`, collecting the popped bindings as a new component. */
    method PopDownTo(v: nat, ghost pos: nat)
      requires Valid() && StackInRange(g, St()) && StackOrdered(g, St())
      requires pos < |stack| && stack[pos] == v
      modifies this, onStack, sccId
      ensures Valid() && PoppedFrom(g, old(St()), St(), pos)
    {
      ghost var s1 := St();
      var comp: seq<nat> := [];
      var compId := |sccs|;
      PoppingStart(g, s1);
      while true
        invariant Valid()
        invariant Popping(g, s1, St(), comp, |stack|)
        invariant pos < |stack| && compId == |s1.sccs|
        decreases |stack|
      {
        ghost var s := St();
        ghost var before := comp;
        var top := |stack|;
        assert stack[top - 1] == s1.stack[top - 1];
        var w := PopOne(compId);
        comp := comp + [w];
        PoppingStep(g, s1, s, before, top);
        if w == v {
          StackOrder(g, s1, top - 1, pos);
          StackOrder(g, s1, pos, top - 1);
          break;
        }
      }
      ghost var s := St();
      sccs := sccs + [comp];
      PoppingDone(g, s1, s, comp, pos);
      assert St() == s.(sccs := s.sccs + [comp]);
    }

    /** The top-level loop: start a search at every candidate not yet visited. */
    method Run()
      requires Valid() && Inv(g, St(), [])
      modifies this, indices, lowlink, onStack, sccId
      ensures Valid() && AllDone(g, St()) && stack == []
    {
      var v := 0;
      while v < |g.refs|
        invariant Valid() && v <= |g.refs| && Inv(g, St(), [])
        invariant forall u :: 0 <= u < v && !g.excluded[u] ==> sccId[u] >= 0
      {
        if !g.excluded[v] && indices[v] == -1 {
          ghost var a := St();
          StrongConnect(v, []);
          RootFinished(g, a, St(), v);
        } else if !g.excluded[v] {
          RootDone(g, St(), v);
        }
        v := v + 1;
      }
      NoGrayNoStack(g, St());
    }

    /** The `hasIncoming` loop: mark every component that a candidate outside it has an edge into. */
    method MarkIncoming() returns (hasIncoming: array<bool>)
      requires Valid() && AllDone(g, St())
      ensures hasIncoming.Length == |sccs|
      ensures forall c :: 0 <= c < |sccs| ==> (hasIncoming[c] <==> Incoming(g, sccId[..], c))
    {
      hasIncoming := new bool[|sccs|](_ => false);
      forall c | 0 <= c < |sccs|
        ensures !IncomingSeen(g, sccId[..], c, 0, 0)
      {
        SeenNone(g, sccId[..], c);
      }
      var src := 0;
      while src < |g.refs|
        invariant src <= |g.refs| && hasIncoming.Length == |sccs|
        invariant forall c :: 0 <= c < |sccs| ==> (hasIncoming[c] <==> IncomingSeen(g, sccId[..], c, src, 0))
      {
        if g.excluded[src] {
          forall c | 0 <= c < |sccs|
            ensures IncomingSeen(g, sccId[..], c, src + 1, 0) <==> IncomingSeen(g, sccId[..], c, src, 0)
          {
            SeenSkip(g, sccId[..], c, src);
          }
        } else {
          var srcId := sccId[src];
          var k := 0;
          while k < |g.refs[src]|
            invariant k <= |g.refs[src]|
            invariant forall c :: 0 <= c < |sccs| ==> (hasIncoming[c] <==> IncomingSeen(g, sccId[..], c, src, k))
          {
            var dst := g.refs[src][k];
            ghost var marks := hasIncoming[..];
            if !g.excluded[dst] {
              var dstId := sccId[dst];
              if srcId != dstId {
                hasIncoming[dstId] := true;
              }
            }
            forall c | 0 <= c < |sccs|
              ensures hasIncoming[c] <==> IncomingSeen(g, sccId[..], c, src, k + 1)
            {
              SeenStep(g, sccId[..], c, src, k);
              assert hasIncoming[c] <==> marks[c] || (Edge(g, src, dst) && sccId[dst] == c && srcId != c);
            }
            k := k + 1;
          }
          forall c | 0 <= c < |sccs|
            ensures IncomingSeen(g, sccId[..], c, src + 1, 0) <==> IncomingSeen(g, sccId[..], c, src, |g.refs[src]|)
          {
            SeenNext(g, sccId[..], c, src);
          }
        }
        src := src + 1;
      }
      forall c | 0 <= c < |sccs|
        ensures IncomingSeen(g, sccId[..], c, |g.refs|, 0) <==> Incoming(g, sccId[..], c)
      {
        SeenAll(g, sccId[..], c);
      }
    }

    /** The collecting loop: self-referencing singletons, and whole components with no incoming edge. */
    method Collect(hasIncoming: array<bool>) returns (removable: set<nat>)
      requires Valid() && AllDone(g, St()) && hasIncoming.Length == |sccs|
      requires forall c :: 0 <= c < |sccs| ==> (hasIncoming[c] <==> Incoming(g, sccId[..], c))
      ensures removable == RemovableSet(g)
    {
      ghost var s := St();
      removable := {};
      var compId := 0;
      while compId < |sccs|
        invariant compId <= |sccs|
        invariant removable == PickedBelow(g, s, hasIncoming[..], compId)
      {
        var comp := sccs[compId];
        PickedStep(g, s, hasIncoming[..], compId);
        if |comp| == 1 {
          var idx := comp[0];
          if idx in g.refs[idx] {
            removable := removable + {idx};
          }
        } else if !hasIncoming[compId] {
          ghost var before := removable;
          var j := 0;
          while j < |comp|
            invariant j <= |comp|
            invariant removable == before + set u: nat | u in comp[..j]
          {
            assert comp[..j + 1] == comp[..j] + [comp[j]];
            removable := removable + {comp[j]};
            j := j + 1;
          }
          assert comp[..|comp|] == comp;
        }
        compId := compId + 1;
      }
      assert removable == set u: nat | u < |g.refs| && !g.excluded[u] && Picked(g, s, hasIncoming[..], u);
      PickedIsRemovable(g, s, hasIncoming[..]);
    }
  }
}
