/**
 * Collecting the declared identifiers that are live: after a fresh crawl
 * and one computation of the removable bindings, every import specifier's
 * local name, every declarator's identifier or pattern variable, and every
 * function declaration's name is examined, and those whose binding is
 * referenced and not removable are added to the result.  Nothing in the
 * tree is changed.
 *
 * The result (a `Set` of identifier paths, which keeps insertion order)
 * is a sequence without repetitions, in traversal order.
 */
module FindReferencedIdentifiers {
  import opened Wrappers
  import opened Ast
  import opened Bindings
  import opened Identifier
  import opened Pattern
  import opened FindRemovable
  import opened Shortcuts
  import DeadCodeElimination

  /**
   * Whether an examined identifier is added: it resolves to a binding that
   * is referenced and is not in the removable set (bindings are named by
   * their index).
   */
  predicate AddIfReferenced(s: Scope, removable: set<nat>, x: Ident)
    requires ScopeOk(s)
    ensures AddIfReferenced(s, removable, x) ==> x.node in s.resolve && s.resolve[x.node] !in removable
  {
    match BindingOf(s, x)
    case None => false
    case Some(b) => b.referenced && s.resolve[x.node] !in removable
  }

  /**
   * Against the question the removal passes ask: a removable binding's
   * identifier is never added; outside the removable set an identifier the
   * passes see as referenced is added; and apart from function
   * declarations (whose self-references the passes discount) the two
   * agree.
   */
  lemma AddIfReferencedVsIsReferenced(s: Scope, removable: set<nat>, x: Ident)
    requires ScopeOk(s)
    ensures x.node in s.resolve && s.resolve[x.node] in removable ==> !AddIfReferenced(s, removable, x)
    ensures IsReferenced(s, x) && (x.node in s.resolve ==> s.resolve[x.node] !in removable) ==> AddIfReferenced(s, removable, x)
    ensures BindingOf(s, x).Some? && BindingOf(s, x).value.kind != FunctionDeclaration && s.resolve[x.node] !in removable ==>
      (AddIfReferenced(s, removable, x) <==> IsReferenced(s, x))
  {
  }

  // The identifiers examined, in traversal order.

  /** Both lists, the first one's error first. */
  function Then(a: Result<seq<Ident>, Error>, b: Result<seq<Ident>, Error>): (r: Result<seq<Ident>, Error>)
    ensures r.Success? <==> a.Success? && b.Success?
    ensures r.Success? ==> r.value == a.value + b.value
    ensures a.Failure? ==> r == a
  {
    if a.Failure? then a
    else if b.Failure? then b
    else Success(a.value + b.value)
  }

  /**
   * The identifiers a node's visitors examine, its own before those of its
   * children: an import's local names, a function declaration's name (when
   * it has one), and whatever its declarators and children examine.  The
   * only error is the pattern collection's: a pattern node of a kind it
   * does not handle.
   */
  function ExaminedNode(n: Node): (r: Result<seq<Ident>, Error>)
    ensures r.Failure? ==> r.error.kind.OtherKind?
    decreases NodeSize(n), 0
  {
    match n
    case Import(_, specs) => Success(specs)
    case VarDecl(_, decls) => ExaminedDecls(decls)
    case Func(_, kind, id, _, body) =>
      Then(Success(if kind == Declaration && id.Some? then [id.value] else []), ExaminedNodes(body))
    case Assign(_, _, right) => if right.Some? then ExaminedNode(right.value) else Success([])
    case Other(_, _, children) => ExaminedNodes(children)
  }

  function ExaminedNodes(ns: seq<Node>): (r: Result<seq<Ident>, Error>)
    ensures r.Failure? ==> r.error.kind.OtherKind?
    decreases NodesSize(ns), 1
  {
    if ns == [] then Success([]) else Then(ExaminedNode(ns[0]), ExaminedNodes(ns[1..]))
  }

  /**
   * A declarator's identifier, or every variable of its object or array
   * pattern (the collection throws on a pattern node it does not handle),
   * then what its `init` examines.
   */
  function ExaminedDecl(d: Declarator): (r: Result<seq<Ident>, Error>)
    ensures r.Failure? ==> r.error.kind.OtherKind?
    decreases DeclSize(d), 0
  {
    var own :=
      match d.id
      case PId(x) => Success([x])
      case PObj(_, _) => FindVariables(d.id)
      case PArr(_, _) => FindVariables(d.id)
      case _ => Success([]);
    Then(own, if d.init.Some? then ExaminedNode(d.init.value) else Success([]))
  }

  function ExaminedDecls(ds: seq<Declarator>): (r: Result<seq<Ident>, Error>)
    ensures r.Failure? ==> r.error.kind.OtherKind?
    decreases DeclsSize(ds), 1
  {
    if ds == [] then Success([]) else Then(ExaminedDecl(ds[0]), ExaminedDecls(ds[1..]))
  }

  /** Every local name of an import is examined, in order. */
  lemma ImportExamined(m: NodeId, specs: seq<Ident>, rest: seq<Node>)
    requires ExaminedNodes(rest).Success?
    ensures ExaminedNodes([Import(m, specs)] + rest) == Success(specs + ExaminedNodes(rest).value)
  {
    assert ([Import(m, specs)] + rest)[1..] == rest;
  }

  /**
   * A declarator with a pattern examines the variables the pattern binds
   * first, before anything in its `init`: the examined list starts with
   * exactly those variables, and the collection's error, when the pattern
   * holds a node it does not handle, is the declarator's.  Without an
   * `init` the pattern's variables are the whole list.
   */
  lemma PatternDeclaratorExamined(d: Declarator)
    requires d.id.PObj? || d.id.PArr?
    ensures !Supported(d.id) ==> ExaminedDecl(d) == FindVariables(d.id)
    ensures ExaminedDecl(d).Success? ==> Supported(d.id)
    ensures ExaminedDecl(d).Success? ==>
      var own := ExaminedDecl(d).value[..|FindVariables(d.id).value|];
      own == FindVariables(d.id).value && forall x :: x in own <==> Binds(d.id, x)
    ensures d.init.None? ==> (ExaminedDecl(d).Success? <==> Supported(d.id))
    ensures d.init.None? && ExaminedDecl(d).Success? ==> ExaminedDecl(d).value == FindVariables(d.id).value
  {
    FindVariablesSound(d.id);
    if FindVariables(d.id).Success? {
      assert FindVariables(d.id).value + [] == FindVariables(d.id).value;
    }
  }

  /**
   * A function examines its own name first, and only when it is a
   * declaration with a name (a function expression's name never is), then
   * whatever its body examines.
   */
  lemma FunctionNameExamined(n: Node)
    requires n.Func?
    ensures var own := if n.kind == Declaration && n.id.Some? then [n.id.value] else [];
      && (ExaminedNode(n).Success? <==> ExaminedNodes(n.body).Success?)
      && (ExaminedNode(n).Success? ==>
            ExaminedNode(n).value[..|own|] == own && ExaminedNode(n).value[|own|..] == ExaminedNodes(n.body).value)
      && (n.body == [] ==> ExaminedNode(n) == Success(own))
  {
    var own := if n.kind == Declaration && n.id.Some? then [n.id.value] else [];
    assert own + [] == own;
    if ExaminedNode(n).Success? {
      assert ExaminedNode(n).value == own + ExaminedNodes(n.body).value;
    }
  }

  // Accumulating the result.

  /**
   * The result after the identifiers `xs` have been examined in order: an
   * identifier is appended when it passes the test and is not there yet.
   */
  function Collected(s: Scope, removable: set<nat>, xs: seq<Ident>): (r: seq<Ident>)
    requires ScopeOk(s)
    ensures |r| <= |xs|
    ensures forall i :: 0 <= i < |r| ==> AddIfReferenced(s, removable, r[i])
    decreases |xs|
  {
    if xs == [] then []
    else
      var before := Collected(s, removable, xs[..|xs| - 1]);
      var x := xs[|xs| - 1];
      if AddIfReferenced(s, removable, x) && x !in before then before + [x] else before
  }

  /** The result holds exactly the examined identifiers that pass the test, each once. */
  lemma {:induction false} CollectedMembers(s: Scope, removable: set<nat>, xs: seq<Ident>)
    requires ScopeOk(s)
    ensures forall x :: x in Collected(s, removable, xs) <==> x in xs && AddIfReferenced(s, removable, x)
    ensures forall i, j :: 0 <= i < j < |Collected(s, removable, xs)| ==>
      Collected(s, removable, xs)[i] != Collected(s, removable, xs)[j]
    decreases |xs|
  {
    if xs != [] {
      var init := xs[..|xs| - 1];
      CollectedMembers(s, removable, init);
      assert xs == init + [xs[|xs| - 1]];
    }
  }

  /**
   * The removable bindings the collection asks about: those
   * `findRemovableBindings` returns as written, or the corrected selection.
   */
  ghost function Removal(s: Scope, asWritten: bool): set<nat>
    requires ScopeOk(s)
  {
    if asWritten then SelectedAsWritten(ProgramBindings(s)) else Selected(ProgramBindings(s))
  }

  /**
   * The collection on its own: the examination of the whole tree, after
   * one crawl and one computation of the removable bindings, by the code
   * as written or by the corrected selection.  The tree is not an output:
   * nothing is removed.
   */
  method FindReferenced(prog: seq<Node>, s: Scope, asWritten: bool) returns (r: Result<seq<Ident>, Error>)
    requires ScopeOk(s) && ContainersInRange(ProgramBindings(s))
    ensures r.Failure? <==> ExaminedNodes(prog).Failure?
    ensures r.Success? ==> r.value == Collected(s, Removal(s, asWritten), ExaminedNodes(prog).value)
  {
    var removable;
    if asWritten {
      removable := FindRemovableBindingsAsWritten(ProgramBindings(s));
    } else {
      removable := FindRemovableBindings(ProgramBindings(s));
    }
    var examined := ExaminedNodes(prog);
    if examined.Failure? {
      return Failure(examined.error);
    }
    var xs := examined.value;
    var referenced: seq<Ident> := [];
    var i := 0;
    while i < |xs|
      invariant 0 <= i <= |xs|
      invariant referenced == Collected(s, removable, xs[..i])
    {
      assert xs[..i + 1][..i] == xs[..i];
      if AddIfReferenced(s, removable, xs[i]) && xs[i] !in referenced {
        referenced := referenced + [xs[i]];
      }
      i := i + 1;
    }
    assert xs[..|xs|] == xs;
    return Success(referenced);
  }

  /**
   * The two readings collect the same identifiers unless exactly three
   * candidates are left in a shape the case table was not written for.
   */
  lemma AsWrittenSameCollection(prog: seq<Node>, s: Scope)
    requires ScopeOk(s)
    requires var table := ProgramBindings(s); var cands := CandidatesBelow(FinalMarks(table), |table|);
      |cands| != 3 || TableShape(CandidateRefs(table), cands)
    ensures Removal(s, true) == Removal(s, false)
    ensures ExaminedNodes(prog).Success? ==>
      Collected(s, Removal(s, true), ExaminedNodes(prog).value) == Collected(s, Removal(s, false), ExaminedNodes(prog).value)
  {
    AsWrittenAgrees(ProgramBindings(s));
  }

  /**
   * What the collection promises, for either removable set: exactly the
   * examined identifiers whose binding is referenced and not removable,
   * each once, and never one of a removable binding.
   */
  lemma FindReferencedExact(prog: seq<Node>, s: Scope, removable: set<nat>, r: seq<Ident>)
    requires ScopeOk(s) && ExaminedNodes(prog).Success?
    requires r == Collected(s, removable, ExaminedNodes(prog).value)
    ensures forall x :: x in r <==> x in ExaminedNodes(prog).value && AddIfReferenced(s, removable, x)
    ensures forall x :: x in r ==> x.node in s.resolve && s.resolve[x.node] !in removable
    ensures forall i, j :: 0 <= i < j < |r| ==> r[i] != r[j]
  {
    CollectedMembers(s, removable, ExaminedNodes(prog).value);
  }

  /** The identifier nodes of a result, as the dead-code pass takes its candidates. */
  function CandidateNodes(r: seq<Ident>): (c: set<NodeId>)
    ensures forall n :: n in c <==> exists x :: x in r && x.node == n
  {
    set x | x in r :: x.node
  }

  /**
   * Given these candidates, `shouldBeRemoved` holds only for identifiers
   * that were live when they were collected: one whose node was examined
   * and whose binding then was referenced and not removable.  (Unreferenced
   * pattern variables and empty patterns are removed by the pass without
   * asking `shouldBeRemoved`, so the candidates do not restrict those.)
   */
  lemma OnlyNewlyUnreferenced(prog: seq<Node>, s: Scope, removable: set<nat>, later: Scope, idOnly: bool, x: Ident)
    requires ScopeOk(s) && ScopeOk(later) && ExaminedNodes(prog).Success?
    requires var r := Collected(s, removable, ExaminedNodes(prog).value);
      DeadCodeElimination.ShouldBeRemoved(DeadCodeElimination.Env(later, Some(CandidateNodes(r)), idOnly), x)
    ensures exists y :: y in ExaminedNodes(prog).value && y.node == x.node && AddIfReferenced(s, removable, y)
  {
    var r := Collected(s, removable, ExaminedNodes(prog).value);
    CollectedMembers(s, removable, ExaminedNodes(prog).value);
    var y :| y in r && y.node == x.node;
  }
}
