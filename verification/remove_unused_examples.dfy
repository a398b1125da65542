/**
 * Object-pattern declarators through the unused-variable pass.  Identifier
 * nodes resolve to one of two bindings: a referenced one or an
 * unreferenced one.
 */
module RemoveUnusedExamples {
  import opened Wrappers
  import opened Ast
  import opened Bindings
  import opened Identifier
  import opened Pattern
  import opened RemoveUnusedVariables

  /** Binding 0 is referenced, binding 1 is not; `live` lists the identifier nodes resolving to binding 0. */
  function TwoBindings(live: set<NodeId>, dead: set<NodeId>): (s: Scope)
    ensures ScopeOk(s)
  {
    Scope(
      [ Binding(VariableDeclarator, 100, None, true, [Use(101, [])], [], [None]),
        Binding(VariableDeclarator, 102, None, false, [], [], []) ],
      2,
      (map x | x in dead :: 1) + (map x | x in live :: 0))
  }

  lemma LiveReferenced(live: set<NodeId>, dead: set<NodeId>, x: Ident)
    requires x.node in live
    ensures IsReferenced(TwoBindings(live, dead), x)
  {
    var s := TwoBindings(live, dead);
    assert BindingOf(s, x) == Some(s.bindings[0]);
  }

  lemma DeadUnreferenced(live: set<NodeId>, dead: set<NodeId>, x: Ident)
    requires x.node in dead && x.node !in live
    ensures !IsReferenced(TwoBindings(live, dead), x)
  {
    var s := TwoBindings(live, dead);
    assert BindingOf(s, x) == Some(s.bindings[1]);
  }

  // `let { _x, ..._restx } = _input`: both identifiers unreferenced.

  const UnderX := Ident(1, "_x")
  const UnderRestX := Ident(2, "_restx")
  const AllDead: seq<PropPat> := [PProp(3, PId(UnderX)), PRestProp(4, PId(UnderRestX))]

  /** Removing the last identifier leaves the pattern empty, and the declarator goes. */
  lemma AllDeadDeclaratorGoes()
    ensures PruneProps(TwoBindings({}, {1, 2}), AllDead, false) == Pruned([], true, true)
    ensures VisitDecl(TwoBindings({}, {1, 2}), Declarator(5, PObj(6, AllDead), None)) == Visited(None, true)
  {
    var s := TwoBindings({}, {1, 2});
    DeadUnreferenced({}, {1, 2}, UnderX);
    DeadUnreferenced({}, {1, 2}, UnderRestX);
    assert AllDead[1..] == [PRestProp(4, PId(UnderRestX))];
    assert AllDead[1..][1..] == [];
    assert PruneProps(s, AllDead[1..], false) == Pruned([], true, true);
  }

  // `let { _a, a, _b: { _bb }, b: { bb }, c: { _cc, cc }, ...rest } = input`

  const A := Ident(10, "a")
  const UnderA := Ident(11, "_a")
  const BB := Ident(12, "bb")
  const UnderBB := Ident(13, "_bb")
  const CC := Ident(14, "cc")
  const UnderCC := Ident(15, "_cc")
  const Rest := Ident(16, "rest")

  const Live: set<NodeId> := {10, 12, 14, 16}
  const Dead: set<NodeId> := {11, 13, 15}

  const PropB := PProp(22, PObj(23, [PProp(24, PId(BB))]))
  const PropC := PProp(25, PObj(26, [PProp(27, PId(UnderCC)), PProp(28, PId(CC))]))
  const PropCPruned := PProp(25, PObj(26, [PProp(28, PId(CC))]))
  const RestProp := PRestProp(29, PId(Rest))

  const Mixed: seq<PropPat> := [
    PProp(17, PId(UnderA)), PProp(18, PId(A)),
    PropUnderB, PropB, PropC, RestProp]

  const MixedPruned: seq<PropPat> := [PProp(18, PId(A)), PropB, PropCPruned, RestProp]

  lemma MixedScope()
    ensures var s := TwoBindings(Live, Dead);
      && IsReferenced(s, A) && IsReferenced(s, BB) && IsReferenced(s, CC) && IsReferenced(s, Rest)
      && !IsReferenced(s, UnderA) && !IsReferenced(s, UnderBB) && !IsReferenced(s, UnderCC)
  {
    LiveReferenced(Live, Dead, A);
    LiveReferenced(Live, Dead, BB);
    LiveReferenced(Live, Dead, CC);
    LiveReferenced(Live, Dead, Rest);
    DeadUnreferenced(Live, Dead, UnderA);
    DeadUnreferenced(Live, Dead, UnderBB);
    DeadUnreferenced(Live, Dead, UnderCC);
  }

  /** The last three members: `c` loses `_cc`, `b` and `...rest` stay. */
  lemma MixedTail()
    ensures PruneProps(TwoBindings(Live, Dead), [PropB, PropC, RestProp], true) ==
      Pruned([PropB, PropCPruned, RestProp], true, false)
  {
    var s := TwoBindings(Live, Dead);
    MixedScope();
    assert [RestProp][1..] == [];
    assert PruneProps(s, [RestProp], true) == Pruned([RestProp], false, false);
    var cInner := [PProp(27, PId(UnderCC)), PProp(28, PId(CC))];
    assert cInner[1..] == [PProp(28, PId(CC))];
    assert [PProp(28, PId(CC))][1..] == [];
    assert PruneProps(s, [PProp(28, PId(CC))], false) == Pruned([PProp(28, PId(CC))], false, false);
    assert PruneProps(s, cInner, false) == Pruned([PProp(28, PId(CC))], true, false);
    assert [PropC, RestProp][1..] == [RestProp];
    assert PruneProps(s, [PropC, RestProp], true) == Pruned([PropCPruned, RestProp], true, false);
    assert [PProp(24, PId(BB))][1..] == [];
    assert PruneProps(s, [PProp(24, PId(BB))], false) == Pruned([PProp(24, PId(BB))], false, false);
    assert [PropB, PropC, RestProp][1..] == [PropC, RestProp];
  }

  const PropUnderB := PProp(19, PObj(20, [PProp(21, PId(UnderBB))]))

  /** `_b` goes with its emptied pattern. */
  lemma MixedFromUnderB()
    ensures PruneProps(TwoBindings(Live, Dead), [PropUnderB, PropB, PropC, RestProp], true) ==
      Pruned([PropB, PropCPruned, RestProp], true, false)
  {
    var s := TwoBindings(Live, Dead);
    MixedScope();
    MixedTail();
    assert [PProp(21, PId(UnderBB))][1..] == [];
    assert PruneProps(s, [PProp(21, PId(UnderBB))], false) == Pruned([], true, true);
    assert [PropUnderB, PropB, PropC, RestProp][1..] == [PropB, PropC, RestProp];
  }

  /** `a` stays. */
  lemma MixedFromA()
    ensures PruneProps(TwoBindings(Live, Dead), Mixed[1..], false) == Pruned(MixedPruned, true, false)
  {
    var s := TwoBindings(Live, Dead);
    MixedScope();
    MixedFromUnderB();
    assert Mixed[1..][1..] == [PropUnderB, PropB, PropC, RestProp];
    assert MixedPruned == [PProp(18, PId(A))] + [PropB, PropCPruned, RestProp];
  }

  /**
   * `_a` goes, `_b` goes with its emptied pattern, `_cc` goes; `a`, `b`,
   * `c` and `...rest` stay.
   */
  lemma MixedPattern()
    ensures PruneProps(TwoBindings(Live, Dead), Mixed, false) == Pruned(MixedPruned, true, false)
  {
    MixedScope();
    MixedFromA();
  }

  /** The declarator keeps `{ a, b: { bb }, c: { cc }, ...rest }`. */
  lemma MixedDeclarator()
    ensures VisitDecl(TwoBindings(Live, Dead), Declarator(30, PObj(31, Mixed), None)) ==
      Visited(Some(Declarator(30, PObj(31, MixedPruned), None)), true)
  {
    MixedPattern();
  }

  // `let { _b: { _bb } } = x`: the nested pattern empties, its member goes,
  // and the outer pattern is left empty but is not removed.

  const NestedOnly: seq<PropPat> := [PProp(40, PObj(41, [PProp(42, PId(UnderBB))]))]

  lemma NestedEmptyLeftBehind()
    ensures PruneProps(TwoBindings(Live, Dead), NestedOnly, false) == Pruned([], true, false)
    ensures VisitDecl(TwoBindings(Live, Dead), Declarator(43, PObj(44, NestedOnly), None)) ==
      Visited(Some(Declarator(43, PObj(44, []), None)), true)
  {
    var s := TwoBindings(Live, Dead);
    MixedScope();
    assert [PProp(42, PId(UnderBB))][1..] == [];
    assert PruneProps(s, [PProp(42, PId(UnderBB))], false) == Pruned([], true, true);
    assert NestedOnly[1..] == [];
  }

  // `let { x = 1, y } = z`: the default value hides `x` from the collection.

  const X := Ident(50, "x")
  const Y := Ident(51, "y")
  const WithDefault := PObj(52, [PProp(53, PAssign(54, PId(X))), PProp(55, PId(Y))])

  /** The general collection sees `x` and `y`; this pass's collection sees only `y`. */
  lemma DefaultHidden()
    ensures FindVariables(WithDefault) == Success([X, Y])
    ensures ObjectVariables(WithDefault) == [Y]
  {
    var props := WithDefault.props;
    assert props[1..] == [PProp(55, PId(Y))];
    assert props[1..][1..] == [];
    assert PropsVariables(props[1..]) == [Y];
    assert FindInProps(props[1..]) == Success([Y]);
    assert FindInProp(props[0]) == Success([X]);
    assert FindInProps(props) == Success([X] + [Y]);
    assert [X] + [Y] == [X, Y];
    assert PropVariables(props[0]) == [];
    assert PropsVariables(props) == [] + [Y];
  }

  /** So an unreferenced `x` with a default value is never removed. */
  lemma DefaultKept()
    ensures PruneProps(TwoBindings({51}, {50}), WithDefault.props, false) == Pruned(WithDefault.props, false, false)
  {
    var s := TwoBindings({51}, {50});
    LiveReferenced({51}, {50}, Y);
    var props := WithDefault.props;
    assert props[1..] == [PProp(55, PId(Y))];
    assert props[1..][1..] == [];
    assert PruneProps(s, props[1..], true) == Pruned(props[1..], false, false);
  }
}
