/**
 * Small programs run through the dead-code pass: an arrow function with an
 * empty parameter pattern (the pass as written throws on it), and a chain
 * of declarations that only becomes removable one pass after another.
 */
module DeadCodeExamples {
  import opened Wrappers
  import opened Ast
  import opened Bindings
  import opened Identifier
  import opened Pattern
  import opened DeadCodeElimination

  // `const f = ({}) => 1; f()`

  const ArrowWithEmptyParam: Node :=
    VarDecl(1, [Declarator(2, PId(Ident(3, "f")), Some(Func(4, Arrow, None, [PObj(5, [])], [Other(6, "NumericLiteral", [])])))])

  const CallOfF: Node :=
    Other(7, "ExpressionStatement", [Other(8, "CallExpression", [Other(9, "Identifier", [])])])

  /** `f` is declared by the declarator and referenced by the call. */
  const ScopeOfF: Scope :=
    Scope([Binding(VariableDeclarator, 2, None, true, [Use(9, [8, 7])], [], [None])], 1, map[3 := 0])

  const ArrowF: Node := Func(4, Arrow, None, [PObj(5, [])], [Other(6, "NumericLiteral", [])])

  lemma FIsReferenced(env: Env)
    requires env.scope == ScopeOfF
    ensures ScopeOk(env.scope) && !ShouldBeRemoved(env, Ident(3, "f"))
  {
    assert BindingOf(ScopeOfF, Ident(3, "f")) == Some(ScopeOfF.bindings[0]);
  }

  /**
   * As written, the empty object pattern counts as inside a declarator
   * (the declarator lies above the arrow function), and cutting it out of
   * the function's parameter list fails.
   */
  lemma EmptyParamThrows()
    ensures ScopeOk(ScopeOfF)
    ensures Pass(Env(ScopeOfF, None, false), [ArrowWithEmptyParam, CallOfF]) ==
      Failure(Unexpected(ArrowFunctionExpression))
  {
    var env := Env(ScopeOfF, None, false);
    FIsReferenced(env);
    var site := InDeclarator(PId(Ident(3, "f")));
    assert Remove(ArrowFunctionExpression, VariableDeclarator) == Failure(Unexpected(ArrowFunctionExpression));
    assert SweepPat(EmptyRule(true), PObj(5, []), ArrowFunctionExpression, VariableDeclarator) ==
      Failure(Unexpected(ArrowFunctionExpression));
    assert SweepParams(EmptyRule(true), [PObj(5, [])], ArrowFunctionExpression, VariableDeclarator) ==
      Failure(Unexpected(ArrowFunctionExpression));
    assert VisitFunc(env, ArrowF, site, true) == Failure(Unexpected(ArrowFunctionExpression));
    var d := Declarator(2, PId(Ident(3, "f")), Some(ArrowF));
    assert SweepPat(EmptyRule(true), PId(Ident(3, "f")), VariableDeclarator, VariableDeclaration) ==
      Success((Kept(PId(Ident(3, "f"))), 0));
    assert VisitDecl(env, d) == Failure(Unexpected(ArrowFunctionExpression));
    assert VisitDecls(env, [d]) == Failure(Unexpected(ArrowFunctionExpression));
    assert VisitNode(env, ArrowWithEmptyParam, InOther(OtherKind("Program")), false) ==
      Failure(Unexpected(ArrowFunctionExpression));
    assert VisitNodes(env, [ArrowWithEmptyParam, CallOfF], InOther(OtherKind("Program")), false) ==
      Failure(Unexpected(ArrowFunctionExpression));
  }

  /** The statement `f()` is left as it is by any pass. */
  lemma CallKept(env: Env)
    requires ScopeOk(env.scope)
    ensures VisitNodes(env, [CallOfF], InOther(OtherKind("Program")), false) == Success((Kept([CallOfF]), 0))
  {
    var leaf := Other(9, "Identifier", []);
    var call := Other(8, "CallExpression", [leaf]);
    assert VisitNodes(env, [leaf], InOther(OtherKind("CallExpression")), false) == Success((Kept([leaf]), 0));
    assert VisitNode(env, call, InOther(OtherKind("ExpressionStatement")), false) == Success((Kept(call), 0));
    assert VisitNodes(env, [call], InOther(OtherKind("ExpressionStatement")), false) == Success((Kept([call]), 0));
    assert VisitNode(env, CallOfF, InOther(OtherKind("Program")), false) == Success((Kept(CallOfF), 0));
  }

  /** With the corrected pattern visitors the arrow function stays as it is. */
  lemma ArrowKept(env: Env)
    requires env.scope == ScopeOfF && env.idOnly
    ensures ScopeOk(env.scope)
    ensures VisitNode(env, ArrowF, InDeclarator(PId(Ident(3, "f"))), false) == Success((Kept(ArrowF), 0))
  {
    FIsReferenced(env);
    EmptyRuleOffParams([PObj(5, [])], ArrowFunctionExpression, VariableDeclarator);
    var lit := Other(6, "NumericLiteral", []);
    assert VisitNodes(env, [lit], InOther(OtherKind("BlockStatement")), false) == Success((Kept([lit]), 0));
  }

  lemma DeclaratorKept(env: Env)
    requires env.scope == ScopeOfF && env.idOnly
    ensures ScopeOk(env.scope)
    ensures VisitNode(env, ArrowWithEmptyParam, InOther(OtherKind("Program")), false) ==
      Success((Kept(ArrowWithEmptyParam), 0))
  {
    FIsReferenced(env);
    ArrowKept(env);
    var d := Declarator(2, PId(Ident(3, "f")), Some(ArrowF));
    assert SweepPat(EmptyRule(true), PId(Ident(3, "f")), VariableDeclarator, VariableDeclaration) ==
      Success((Kept(PId(Ident(3, "f"))), 0));
    assert VisitDecl(env, d) == Success((Kept(d), 0));
    assert VisitDecls(env, [d]) == Success((Kept([d]), 0));
  }

  /** The corrected pass leaves the program as it is. */
  lemma EmptyParamKept()
    ensures ScopeOk(ScopeOfF)
    ensures Pass(Env(ScopeOfF, None, true), [ArrowWithEmptyParam, CallOfF]) ==
      Success(([ArrowWithEmptyParam, CallOfF], 0))
  {
    var env := Env(ScopeOfF, None, true);
    DeclaratorKept(env);
    CallKept(env);
    assert [ArrowWithEmptyParam, CallOfF][1..] == [CallOfF];
  }

  // `function d() {}  let e = function () { return d() }`: `e` is never
  // used, and `d` is used only by `e`'s function.

  const DeclD: Node := Func(1, Declaration, Some(Ident(2, "d")), [], [])

  const DeclE: Node :=
    VarDecl(3, [Declarator(4, PId(Ident(5, "e")), Some(Func(6, Expression, None, [], [Other(7, "CallExpression", [])])))])

  /** The crawl: `d` is referenced while `e`'s declaration is there. */
  function ChainCrawl(t: seq<Node>): (s: Scope)
    ensures ScopeOk(s)
  {
    var live := DeclE in t;
    Scope(
      [ Binding(FunctionDeclaration, 1, None, live, if live then [Use(7, [6, 4, 3])] else [], [], if live then [Some(1)] else []),
        Binding(VariableDeclarator, 4, None, false, [], [], []) ],
      2, map[2 := 0, 5 := 1])
  }

  lemma DReferencedWhileE()
    ensures IsReferenced(ChainCrawl([DeclD, DeclE]), Ident(2, "d"))
  {
    var s := ChainCrawl([DeclD, DeclE]);
    assert [DeclD, DeclE][1] == DeclE;
    var b := s.bindings[0];
    assert BindingOf(s, Ident(2, "d")) == Some(b);
    var u := Use(7, [6, 4, 3]);
    assert u in b.violations + b.references && !Inside(b, u);
  }

  lemma EUnreferenced(t: seq<Node>)
    ensures !IsReferenced(ChainCrawl(t), Ident(5, "e"))
  {
    assert BindingOf(ChainCrawl(t), Ident(5, "e")) == Some(ChainCrawl(t).bindings[1]);
  }

  lemma DUnreferencedAlone()
    ensures !IsReferenced(ChainCrawl([DeclD]), Ident(2, "d"))
  {
    var s := ChainCrawl([DeclD]);
    assert DeclE !in [DeclD];
    assert BindingOf(s, Ident(2, "d")) == Some(s.bindings[0]);
  }

  /** The first pass removes `e` only, which leaves `d` unreferenced. */
  lemma ChainFirstPass()
    ensures Pass(Env(ChainCrawl([DeclD, DeclE]), None, true), [DeclD, DeclE]) == Success(([DeclD], 1))
  {
    var env := Env(ChainCrawl([DeclD, DeclE]), None, true);
    DReferencedWhileE();
    EUnreferenced([DeclD, DeclE]);
    assert VisitNode(env, DeclD, InOther(OtherKind("Program")), false) == Success((Kept(DeclD), 0));
    var d := Declarator(4, PId(Ident(5, "e")), Some(Func(6, Expression, None, [], [Other(7, "CallExpression", [])])));
    assert VisitDecl(env, d) == Success((Gone, 1));
    assert VisitDecls(env, [d]) == Success((Kept([]), 1));
    assert VisitNode(env, DeclE, InOther(OtherKind("Program")), false) == Success((Gone, 1));
    assert VisitNodes(env, [DeclE], InOther(OtherKind("Program")), false) == Success((Kept([]), 1));
    assert [DeclD, DeclE][1..] == [DeclE];
    assert [DeclD] + [] == [DeclD];
  }

  /** The second pass removes `d`, and the third finds nothing: the elimination ends with an empty program. */
  lemma ChainRemoved()
    ensures CrawlOk(ChainCrawl)
    ensures Sweep(ChainCrawl, None, true, [DeclD, DeclE]) == Success([])
  {
    ChainFirstPass();
    var env := Env(ChainCrawl([DeclD]), None, true);
    DUnreferencedAlone();
    assert VisitNode(env, DeclD, InOther(OtherKind("Program")), false) == Success((Gone, 1));
    assert [DeclD][1..] == [];
    assert VisitNodes(env, [], InOther(OtherKind("Program")), false) == Success((Kept([]), 0));
    assert VisitNodes(env, [DeclD], InOther(OtherKind("Program")), false) == Success((Kept([]), 1));
    assert Pass(env, [DeclD]) == Success(([], 1));
    assert Pass(Env(ChainCrawl([]), None, true), []) == Success(([], 0));
    assert Sweep(ChainCrawl, None, true, []) == Success([]);
    assert Sweep(ChainCrawl, None, true, [DeclD]) == Success([]);
  }
}
