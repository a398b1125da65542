/**
 * The unused-variable pass: repeated passes, each on a fresh crawl, that
 * remove declarators whose identifier is unreferenced and prune the
 * unreferenced identifiers out of object-pattern declarators, until a
 * pass changes nothing.  Array-pattern declarators are left alone.
 *
 * As in the dead-code pass, a pass is modelled as a function from the tree
 * to the new tree and a `changed` flag; the do/while driver is a method
 * proved against the function that repeats passes.
 */
module RemoveUnusedVariables {
  import opened Wrappers
  import opened Ast
  import opened Bindings
  import opened Identifier
  import opened Pattern

  // The object-only collection (`findVariablesInObjectPattern`).

  /**
   * The identifiers an object pattern binds, as this pass collects them:
   * through nested object patterns, property values and rest arguments
   * only.  Any other node (a default value, an array pattern) contributes
   * nothing: the collection builds an error for it but does not throw.
   * A rest element occurs in an object pattern only as a member, which
   * `PropVariables` handles.
   */
  function ObjectVariables(p: Pat): seq<Ident> {
    match p
    case PId(x) => [x]
    case PObj(_, props) => PropsVariables(props)
    case _ => []
  }

  function PropVariables(q: PropPat): seq<Ident> {
    ObjectVariables(Target(q))
  }

  function PropsVariables(props: seq<PropPat>): seq<Ident> {
    if props == [] then [] else PropVariables(props[0]) + PropsVariables(props[1..])
  }

  /** The pattern a member holds: a property's value or a rest element's argument. */
  function Target(q: PropPat): (r: Pat)
    ensures PropSize(q) == 1 + PatSize(r)
  {
    match q
    case PProp(_, value) => value
    case PRestProp(_, arg) => arg
  }

  /** The member with its pattern replaced. */
  function Retarget(q: PropPat, p: Pat): (r: PropPat)
    ensures Target(r) == p && PropSize(r) == 1 + PatSize(p)
    ensures p == Target(q) ==> r == q
  {
    match q
    case PProp(m, _) => PProp(m, p)
    case PRestProp(m, _) => PRestProp(m, p)
  }

  /** An object pattern built only of identifiers, object patterns and rest members. */
  predicate ObjectOnly(p: Pat) {
    match p
    case PId(_) => true
    case PObj(_, props) => forall i :: 0 <= i < |props| ==> ObjectOnly(Target(props[i]))
    case _ => false
  }

  /**
   * Against the general collection: every identifier collected is one the
   * pattern binds, and on patterns built only of identifiers, object
   * patterns and rest members both collections agree.
   */
  lemma {:induction false} ObjectVariablesSound(p: Pat)
    ensures forall x :: x in ObjectVariables(p) ==> Binds(p, x)
    ensures ObjectOnly(p) ==> FindVariables(p) == Success(ObjectVariables(p))
    decreases PatSize(p), 1
  {
    if p.PObj? {
      PropsVariablesSound(p.props);
    }
  }

  lemma {:induction false} PropsVariablesSound(props: seq<PropPat>)
    ensures forall x :: x in PropsVariables(props) ==> exists i :: 0 <= i < |props| && PropBinds(props[i], x)
    ensures (forall i :: 0 <= i < |props| ==> ObjectOnly(Target(props[i]))) ==>
      FindInProps(props) == Success(PropsVariables(props))
    decreases PropsSize(props), 0
  {
    if props != [] {
      ObjectVariablesSound(Target(props[0]));
      PropsVariablesSound(props[1..]);
      forall x | x in PropsVariables(props)
        ensures exists i :: 0 <= i < |props| && PropBinds(props[i], x)
      {
        if x in PropVariables(props[0]) {
          assert PropBinds(props[0], x);
        } else {
          var i :| 0 <= i < |props[1..]| && PropBinds(props[1..][i], x);
          assert PropBinds(props[i + 1], x);
        }
      }
      if forall i :: 0 <= i < |props| ==> ObjectOnly(Target(props[i])) {
        assert ObjectOnly(Target(props[0]));
        assert forall i :: 0 <= i < |props[1..]| ==> ObjectOnly(Target(props[1..][i])) by {
          forall i | 0 <= i < |props[1..]|
            ensures ObjectOnly(Target(props[1..][i]))
          {
            assert props[1..][i] == props[i + 1];
          }
        }
      }
    }
  }

  // Pruning an object pattern.

  /**
   * What pruning an object pattern's members leaves: the members still
   * there, whether anything was removed, and whether the pattern was left
   * empty right after one of its own identifiers was removed (then its
   * parent is removed too).
   */
  datatype Pruned = Pruned(props: seq<PropPat>, changed: bool, emptied: bool)

  function Keep(q: PropPat, rest: Pruned): Pruned {
    Pruned([q] + rest.props, rest.changed, rest.emptied)
  }

  /**
   * The identifiers of the members, in order, each removed with the member
   * holding it when unreferenced.  `keptBefore` says whether a member
   * before these is still in the pattern: the pattern is empty after a
   * removal only when nothing before it was kept and nothing follows.  A
   * nested pattern left empty takes its member with it, but that removal
   * does not make the enclosing pattern's parent go.
   */
  function PruneProps(s: Scope, props: seq<PropPat>, keptBefore: bool): (r: Pruned)
    requires ScopeOk(s)
    ensures PropsSize(r.props) <= PropsSize(props)
    ensures !r.changed ==> r.props == props && !r.emptied
    ensures r.changed ==> PropsSize(r.props) < PropsSize(props)
    ensures r.emptied ==> r.props == [] && !keptBefore
    decreases PropsSize(props)
  {
    if props == [] then Pruned([], false, false)
    else
      var q := props[0];
      var last := |props| == 1;
      var target := Target(q);
      assert PropsSize(props) == PropSize(q) + PropsSize(props[1..]);
      if target.PId? && IsReferenced(s, target.id) then
        var rest := PruneProps(s, props[1..], true);
        assert ([q] + rest.props)[1..] == rest.props;
        Keep(q, rest)
      else if target.PId? then
        var rest := PruneProps(s, props[1..], keptBefore);
        Pruned(rest.props, true, rest.emptied || (last && !keptBefore))
      else if target.PObj? then
        var inner := PruneProps(s, target.props, false);
        if inner.emptied then
          var rest := PruneProps(s, props[1..], keptBefore);
          Pruned(rest.props, true, rest.emptied)
        else
          var rest := PruneProps(s, props[1..], true);
          var q' := Retarget(q, PObj(target.node, inner.props));
          assert ([q'] + rest.props)[1..] == rest.props;
          Pruned([q'] + rest.props, inner.changed || rest.changed, rest.emptied)
      else
        var rest := PruneProps(s, props[1..], true);
        assert ([q] + rest.props)[1..] == rest.props;
        Keep(q, rest)
  }

  /**
   * When the enclosing pattern's parent goes: exactly when nothing before
   * these members was kept, nothing of them is left, and the last of them
   * held an identifier (whose removal is the one that finds the pattern
   * empty).  A pattern emptied by the removal of a nested pattern, or one
   * that was empty to begin with, stays.
   */
  lemma {:induction false} EmptiedExactly(s: Scope, props: seq<PropPat>, keptBefore: bool)
    requires ScopeOk(s)
    ensures var r := PruneProps(s, props, keptBefore);
      r.emptied <==> !keptBefore && props != [] && r.props == [] && Target(props[|props| - 1]).PId?
    decreases PropsSize(props)
  {
    if props != [] {
      var q := props[0];
      var target := Target(q);
      assert PropsSize(props) == PropSize(q) + PropsSize(props[1..]);
      if |props| > 1 {
        assert props[1..][|props[1..]| - 1] == props[|props| - 1];
      }
      if target.PId? && IsReferenced(s, target.id) {
        EmptiedExactly(s, props[1..], true);
      } else if target.PId? {
        EmptiedExactly(s, props[1..], keptBefore);
      } else if target.PObj? {
        var inner := PruneProps(s, target.props, false);
        if inner.emptied {
          EmptiedExactly(s, props[1..], keptBefore);
        } else {
          EmptiedExactly(s, props[1..], true);
        }
      } else {
        EmptiedExactly(s, props[1..], true);
      }
    }
  }

  /**
   * Pruning keeps exactly the referenced identifiers, in order; it changes
   * something exactly when some identifier is unreferenced; and a pattern
   * is left empty only when none of its identifiers is referenced.
   */
  lemma {:induction false} PruneFilters(s: Scope, props: seq<PropPat>, keptBefore: bool)
    requires ScopeOk(s)
    ensures var r := PruneProps(s, props, keptBefore);
      var xs := PropsVariables(props);
      && PropsVariables(r.props) == ReferencedOnly(s, xs)
      && (r.changed <==> |ReferencedOnly(s, xs)| < |xs|)
      && (r.emptied ==> ReferencedOnly(s, xs) == [])
    decreases PropsSize(props)
  {
    if props != [] {
      var q := props[0];
      var target := Target(q);
      var tail := PropsVariables(props[1..]);
      var xs := PropsVariables(props);
      assert xs == PropVariables(q) + tail;
      assert PropsSize(props) == PropSize(q) + PropsSize(props[1..]);
      ReferencedOnlyAppend(s, PropVariables(q), tail);
      if target.PId? {
        var keep := IsReferenced(s, target.id);
        PruneFilters(s, props[1..], keep || keptBefore);
        assert ReferencedOnly(s, [target.id]) == (if keep then [target.id] else []) by {
          assert [target.id][1..] == [];
        }
        var rest := PruneProps(s, props[1..], keep || keptBefore);
        if keep {
          assert ([q] + rest.props)[1..] == rest.props;
        }
      } else if target.PObj? {
        PruneFilters(s, target.props, false);
        var inner := PruneProps(s, target.props, false);
        if inner.emptied {
          PruneFilters(s, props[1..], keptBefore);
        } else {
          PruneFilters(s, props[1..], true);
          var rest := PruneProps(s, props[1..], true);
          var q' := Retarget(q, PObj(target.node, inner.props));
          assert ([q'] + rest.props)[1..] == rest.props;
          assert PropVariables(q) == PropsVariables(target.props);
          assert PropVariables(q') == PropsVariables(inner.props);
        }
      } else {
        PruneFilters(s, props[1..], true);
        var rest := PruneProps(s, props[1..], true);
        assert ([q] + rest.props)[1..] == rest.props;
      }
    }
  }

  // One pass.

  /** What a pass leaves of one node: the node as it is now, or nothing when it was removed, and whether anything changed. */
  datatype Visited<T> = Visited(value: Option<T>, changed: bool)

  predicate PatShrinks(p: Pat, r: Visited<Pat>) {
    && (!r.changed ==> r.value == Some(p))
    && (r.changed && r.value.Some? ==> PatSize(r.value.value) < PatSize(p))
  }

  predicate NodeShrinks(n: Node, r: Visited<Node>) {
    && (!r.changed ==> r.value == Some(n))
    && (r.changed && r.value.Some? ==> NodeSize(r.value.value) < NodeSize(n))
  }

  predicate DeclShrinks(d: Declarator, r: Visited<Declarator>) {
    && (!r.changed ==> r.value == Some(d))
    && (r.changed && r.value.Some? ==> DeclSize(r.value.value) < DeclSize(d))
  }

  predicate NodesShrink(ns: seq<Node>, r: (seq<Node>, bool)) {
    && (!r.1 ==> r.0 == ns)
    && (r.1 ==> NodesSize(r.0) < NodesSize(ns))
  }

  predicate DeclsShrink(ds: seq<Declarator>, r: (seq<Declarator>, bool)) {
    && (!r.1 ==> r.0 == ds)
    && (r.1 ==> DeclsSize(r.0) < DeclsSize(ds))
  }

  /**
   * What becomes of a declarator's `id`: an unreferenced identifier goes
   * (and its declarator with it); an object pattern is pruned, and goes
   * when pruning leaves it empty; anything else, an array pattern
   * included, stays as it is.
   */
  function PruneId(s: Scope, id: Pat): (r: Visited<Pat>)
    requires ScopeOk(s)
    ensures PatShrinks(id, r)
  {
    match id
    case PId(x) => if IsReferenced(s, x) then Visited(Some(id), false) else Visited(None, true)
    case PObj(m, props) =>
      var p := PruneProps(s, props, false);
      if p.emptied then Visited(None, true) else Visited(Some(PObj(m, p.props)), p.changed)
    case _ => Visited(Some(id), false)
  }

  /** A declarator: its `id` as `PruneId` leaves it, then (unless it went) its `init`. */
  function VisitDecl(s: Scope, d: Declarator): (r: Visited<Declarator>)
    requires ScopeOk(s)
    ensures DeclShrinks(d, r)
    decreases DeclSize(d), 2
  {
    var id := PruneId(s, d.id);
    if id.value.None? then Visited(None, true)
    else
      match d.init
      case None => Visited(Some(Declarator(d.node, id.value.value, None)), id.changed)
      case Some(e) =>
        var init := VisitNode(s, e);
        Visited(Some(Declarator(d.node, id.value.value, init.value)), id.changed || init.changed)
  }

  function VisitDecls(s: Scope, ds: seq<Declarator>): (r: (seq<Declarator>, bool))
    requires ScopeOk(s)
    ensures DeclsShrink(ds, r)
    decreases DeclsSize(ds), 3
  {
    if ds == [] then ([], false)
    else
      var head := VisitDecl(s, ds[0]);
      var tail := VisitDecls(s, ds[1..]);
      var kept := if head.value.Some? then [head.value.value] else [];
      assert DeclsSize(kept + tail.0) == (if head.value.Some? then DeclSize(head.value.value) else 0) + DeclsSize(tail.0) by {
        if head.value.Some? {
          assert (kept + tail.0)[1..] == tail.0;
        } else {
          assert kept + tail.0 == tail.0;
        }
      }
      assert !head.changed && !tail.1 ==> kept + tail.0 == ds by {
        if !head.changed && !tail.1 {
          assert ds == [ds[0]] + ds[1..];
        }
      }
      (kept + tail.0, head.changed || tail.1)
  }

  /**
   * A node: declarators are visited wherever they are.  A declaration
   * whose last declarator goes goes with it.
   */
  function VisitNode(s: Scope, n: Node): (r: Visited<Node>)
    requires ScopeOk(s)
    ensures NodeShrinks(n, r)
    decreases NodeSize(n), 2
  {
    match n
    case Import(_, _) => Visited(Some(n), false)
    case VarDecl(m, decls) =>
      var ds := VisitDecls(s, decls);
      if decls != [] && ds.0 == [] then Visited(None, true)
      else Visited(Some(VarDecl(m, ds.0)), ds.1)
    case Func(m, kind, id, params, body) =>
      var b := VisitNodes(s, body);
      Visited(Some(Func(m, kind, id, params, b.0)), b.1)
    case Assign(m, left, right) =>
      if right.None? then Visited(Some(n), false)
      else
        var v := VisitNode(s, right.value);
        Visited(Some(Assign(m, left, v.value)), v.changed)
    case Other(m, t, children) =>
      var c := VisitNodes(s, children);
      Visited(Some(Other(m, t, c.0)), c.1)
  }

  function VisitNodes(s: Scope, ns: seq<Node>): (r: (seq<Node>, bool))
    requires ScopeOk(s)
    ensures NodesShrink(ns, r)
    decreases NodesSize(ns), 3
  {
    if ns == [] then ([], false)
    else
      var head := VisitNode(s, ns[0]);
      var tail := VisitNodes(s, ns[1..]);
      var kept := if head.value.Some? then [head.value.value] else [];
      assert NodesSize(kept + tail.0) == (if head.value.Some? then NodeSize(head.value.value) else 0) + NodesSize(tail.0) by {
        if head.value.Some? {
          assert (kept + tail.0)[1..] == tail.0;
        } else {
          assert kept + tail.0 == tail.0;
        }
      }
      assert !head.changed && !tail.1 ==> kept + tail.0 == ns by {
        if !head.changed && !tail.1 {
          assert ns == [ns[0]] + ns[1..];
        }
      }
      (kept + tail.0, head.changed || tail.1)
  }

  /** An identifier declarator goes exactly when its identifier is unreferenced. */
  lemma IdentDeclaratorRemoved(s: Scope, d: Declarator)
    requires ScopeOk(s) && d.id.PId?
    ensures VisitDecl(s, d).value.None? <==> !IsReferenced(s, d.id.id)
  {
  }

  /**
   * An object-pattern declarator keeps exactly its referenced identifiers,
   * in order, and goes only when none of them is referenced; it goes
   * exactly when pruning leaves no member and its last member held an
   * identifier.
   */
  lemma ObjectDeclaratorFiltered(s: Scope, d: Declarator)
    requires ScopeOk(s) && d.id.PObj?
    ensures var r := VisitDecl(s, d);
      var xs := ObjectVariables(d.id);
      && (r.value.None? ==> ReferencedOnly(s, xs) == [])
      && (r.value.Some? ==> r.value.value.id.PObj? && ObjectVariables(r.value.value.id) == ReferencedOnly(s, xs))
      && (r.value.None? <==> var props := d.id.props;
            props != [] && PruneProps(s, props, false).props == [] && Target(props[|props| - 1]).PId?)
  {
    PruneFilters(s, d.id.props, false);
    EmptiedExactly(s, d.id.props, false);
  }

  /** An array-pattern declarator's `id` is never changed. */
  lemma ArrayDeclaratorKept(s: Scope, d: Declarator)
    requires ScopeOk(s) && d.id.PArr?
    ensures VisitDecl(s, d).value.Some? && VisitDecl(s, d).value.value.id == d.id
  {
  }

  // The driver.

  /** Passes, each on a fresh crawl of the current tree, until one changes nothing. */
  function Cleanup(crawl: seq<Node> -> Scope, prog: seq<Node>): seq<Node>
    requires CrawlOk(crawl)
    decreases NodesSize(prog)
  {
    var r := VisitNodes(crawl(prog), prog);
    if r.1 then Cleanup(crawl, r.0) else r.0
  }

  /** The result is a fixed point: one more pass on it changes nothing. */
  lemma {:induction false} CleanupFixedPoint(crawl: seq<Node> -> Scope, prog: seq<Node>)
    requires CrawlOk(crawl)
    ensures var u := Cleanup(crawl, prog); VisitNodes(crawl(u), u) == (u, false)
    decreases NodesSize(prog)
  {
    var r := VisitNodes(crawl(prog), prog);
    if r.1 {
      CleanupFixedPoint(crawl, r.0);
    }
  }

  /** The passes never grow the program, and leave it as it is exactly when the first pass changes nothing. */
  lemma {:induction false} CleanupShrinks(crawl: seq<Node> -> Scope, prog: seq<Node>)
    requires CrawlOk(crawl)
    ensures NodesSize(Cleanup(crawl, prog)) <= NodesSize(prog)
    ensures Cleanup(crawl, prog) == prog <==> !VisitNodes(crawl(prog), prog).1
    decreases NodesSize(prog)
  {
    var r := VisitNodes(crawl(prog), prog);
    if r.1 {
      CleanupShrinks(crawl, r.0);
    }
  }

  /** The do/while driver on the `changed` flag. */
  method RemoveUnused(prog: seq<Node>, crawl: seq<Node> -> Scope) returns (r: seq<Node>)
    requires CrawlOk(crawl)
    ensures r == Cleanup(crawl, prog)
  {
    var tree := prog;
    var changed := true;
    while changed
      invariant changed ==> Cleanup(crawl, tree) == Cleanup(crawl, prog)
      invariant !changed ==> tree == Cleanup(crawl, prog)
      decreases changed, NodesSize(tree)
    {
      var pass := VisitNodes(crawl(tree), tree);
      changed := pass.1;
      tree := pass.0;
    }
    return tree;
  }
}
