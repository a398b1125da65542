/**
 * The dead-code pass: passes over the program that remove unreferenced
 * declarations, repeated until a pass removes nothing.
 *
 * A pass is modelled as a function from the tree to the new tree and the
 * number of removals it counted, or the error it threw.  Babel's
 * traversal is a depth-first walk that calls the visitors on entering a
 * node and skips what a visitor removed; an edit is reported to the node
 * it affects as a `Fate` (kept, removed, turned into a hole, or removing
 * its parent or grandparent).  The scope crawl each pass starts with is a
 * parameter of the driver.
 */
module DeadCodeElimination {
  import opened Wrappers
  import opened Ast
  import opened Bindings
  import opened Identifier
  import opened Pattern

  /**
   * What a pass works with: the crawl of the tree it starts from, the
   * candidate identifiers (if any were given), and whether empty patterns
   * are looked for only inside a declarator's own `id` (the corrected
   * reading of `isWithinDeclarator`; the code as written looks anywhere
   * below a declarator, including its `init`).
   */
  datatype Env = Env(scope: Scope, candidates: Option<set<NodeId>>, idOnly: bool)

  /**
   * An identifier is removed when it is not referenced and, if candidates
   * were given, it is one of them.
   */
  function ShouldBeRemoved(env: Env, x: Ident): (r: bool)
    requires ScopeOk(env.scope)
    ensures IsReferenced(env.scope, x) ==> !r
    ensures !IsReferenced(env.scope, x) && env.candidates.None? ==> r
    ensures !IsReferenced(env.scope, x) && env.candidates.Some? ==> (r <==> x.node in env.candidates.value)
  {
    if IsReferenced(env.scope, x) then false
    else if env.candidates.None? then true
    else x.node in env.candidates.value
  }

  /** What a visit does to the node it visits, as seen by that node's container. */
  datatype Fate<T> =
    | Kept(value: T)   // still there, possibly edited
    | Gone             // removed from its container
    | Nulled           // its array slot became a hole
    | ParentGone       // its parent was removed
    | ParentNulled     // its parent's array slot became a hole
    | GrandGone        // its grandparent was removed

  /** The fate concerns an ancestor. */
  predicate Upward<T>(f: Fate<T>) {
    f.ParentGone? || f.ParentNulled? || f.GrandGone?
  }

  /** An upward fate, seen one level up. */
  function Up<T, U>(f: Fate<T>): (g: Fate<U>)
    requires Upward(f)
    ensures !g.Kept?
  {
    match f
    case ParentGone => Gone
    case ParentNulled => Nulled
    case GrandGone => ParentGone
  }

  /** The same fate, for the node viewed at another type. */
  function Recast<T, U>(f: Fate<T>): (g: Fate<U>)
    requires !f.Kept?
    ensures !g.Kept?
  {
    match f
    case Gone => Gone
    case Nulled => Nulled
    case ParentGone => ParentGone
    case ParentNulled => ParentNulled
    case GrandGone => GrandGone
  }

  /** How many levels above the node a removal reaches. */
  function Slack<T>(f: Fate<T>): nat {
    match f
    case ParentGone => 1
    case ParentNulled => 1
    case GrandGone => 2
    case _ => 0
  }

  /** The fate of a pattern an excision is about. */
  function FateOf(cut: Excision): (f: Fate<Pat>)
    ensures !f.Kept? && Slack(f) <= 2
  {
    match cut
    case RemoveParent => ParentGone
    case NullSlot => Nulled
    case RemoveGrandparent => GrandGone
    case NullParentSlot => ParentNulled
  }

  /**
   * What happens to an unreferenced identifier inside a declarator's
   * pattern, by the kinds of its parent and grandparent: its property or
   * rest element goes, or its array slot becomes a hole; behind a default
   * value the same happens one level up.  Any other parent is an error.
   */
  function ExciseVar(parent: NodeKind, grand: NodeKind): (r: Result<Excision, Error>)
    ensures r.Success? <==>
      parent in {ObjectProperty, ArrayPattern, RestElement} ||
      (parent == AssignmentPattern && grand in {ObjectProperty, ArrayPattern})
    ensures r.Failure? ==> r.error == Unexpected(parent)
    ensures r.Success? ==> (r.value == NullSlot <==> parent == ArrayPattern)
    ensures r.Success? ==> (r.value == NullParentSlot <==> parent == AssignmentPattern && grand == ArrayPattern)
    ensures r.Success? ==> (r.value == RemoveGrandparent <==> parent == AssignmentPattern && grand == ObjectProperty)
  {
    if parent == ObjectProperty then Success(RemoveParent)
    else if parent == ArrayPattern then Success(NullSlot)
    else if parent == AssignmentPattern then
      if grand == ObjectProperty then Success(RemoveGrandparent)
      else if grand == ArrayPattern then Success(NullParentSlot)
      else Failure(Unexpected(parent))
    else if parent == RestElement then Success(RemoveParent)
    else Failure(Unexpected(parent))
  }

  /**
   * The two things a pass does inside a pattern: the declarator visitor
   * cuts out unreferenced identifiers (`VarRule`), and the pattern
   * visitors cut out empty object patterns and all-hole array patterns
   * when a declarator is above them (`EmptyRule`).
   */
  datatype Rule = VarRule(scope: Scope) | EmptyRule(within: bool)

  predicate RuleOk(m: Rule) {
    m.VarRule? ==> ScopeOk(m.scope)
  }

  predicate AllHoles(elems: seq<Elem>) {
    forall i :: 0 <= i < |elems| ==> elems[i] == Hole
  }

  // The size accounting every visit keeps: a kept node loses at least as
  // many nodes as removals were counted (and is unchanged when none
  // were), and a removal reaching `Slack` levels up counts at most the
  // nodes below the removed ancestor.

  predicate PatShrinks(p: Pat, f: Fate<Pat>, c: nat) {
    if f.Kept? then PatSize(f.value) + c <= PatSize(p) && (c == 0 ==> f.value == p)
    else 1 <= c <= PatSize(p) + Slack(f)
  }

  predicate PropShrinks(q: PropPat, f: Fate<PropPat>, c: nat) {
    if f.Kept? then PropSize(f.value) + c <= PropSize(q) && (c == 0 ==> f.value == q)
    else 1 <= c <= PropSize(q) + Slack(f)
  }

  predicate ElemShrinks(e: Elem, f: Fate<Elem>, c: nat) {
    if f.Kept? then ElemSize(f.value) + c <= ElemSize(e) && (c == 0 ==> f.value == e)
    else 1 <= c <= ElemSize(e) + Slack(f)
  }

  /** For a list, a fate other than `Kept` is the fate of the node owning the list. */
  predicate PropsShrink(props: seq<PropPat>, f: Fate<seq<PropPat>>, c: nat) {
    if f.Kept? then PropsSize(f.value) + c <= PropsSize(props) && (c == 0 ==> f.value == props)
    else 1 <= c <= PropsSize(props) + 1 + Slack(f)
  }

  predicate ElemsShrink(elems: seq<Elem>, f: Fate<seq<Elem>>, c: nat) {
    if f.Kept? then ElemsSize(f.value) + c <= ElemsSize(elems) && (c == 0 ==> f.value == elems)
    else 1 <= c <= ElemsSize(elems) + 1 + Slack(f)
  }

  predicate PatsShrink(ps: seq<Pat>, f: Fate<seq<Pat>>, c: nat) {
    if f.Kept? then PatsSize(f.value) + c <= PatsSize(ps) && (c == 0 ==> f.value == ps)
    else 1 <= c <= PatsSize(ps) + 1 + Slack(f)
  }

  /** Applies an excision decision to the pattern it concerns; the decision counts as one removal. */
  function Cut(d: Result<Excision, Error>): (r: Result<(Fate<Pat>, nat), Error>)
    ensures r.Success? ==> !r.value.0.Kept? && r.value.1 == 1 && Slack(r.value.0) <= 2
  {
    match d
    case Failure(e) => Failure(e)
    case Success(cut) => Success((FateOf(cut), 1))
  }

  /**
   * One rule applied to pattern `p`, whose parent and grandparent have
   * kinds `parent` and `grand`.
   */
  function SweepPat(m: Rule, p: Pat, parent: NodeKind, grand: NodeKind): (r: Result<(Fate<Pat>, nat), Error>)
    requires RuleOk(m)
    ensures r.Success? ==> PatShrinks(p, r.value.0, r.value.1)
  {
    match p
    case PId(x) =>
      if m.VarRule? && !IsReferenced(m.scope, x) then Cut(ExciseVar(parent, grand))
      else Success((Kept(p), 0))
    case PObj(n, props) =>
      if m.EmptyRule? && m.within && props == [] then Cut(Remove(parent, grand))
      else
        var r := SweepProps(m, props);
        if r.Failure? then Failure(r.error)
        else if r.value.0.Kept? then Success((Kept(PObj(n, r.value.0.value)), r.value.1))
        else Success((Recast(r.value.0), r.value.1))
    case PArr(n, elems) =>
      if m.EmptyRule? && m.within && AllHoles(elems) then Cut(Remove(parent, grand))
      else
        var r := SweepElems(m, elems, parent);
        if r.Failure? then Failure(r.error)
        else if r.value.0.Kept? then Success((Kept(PArr(n, r.value.0.value)), r.value.1))
        else Success((Recast(r.value.0), r.value.1))
    case PAssign(n, left) =>
      var r := SweepPat(m, left, AssignmentPattern, parent);
      if r.Failure? then Failure(r.error)
      else if r.value.0.Kept? then Success((Kept(PAssign(n, r.value.0.value)), r.value.1))
      else if Upward(r.value.0) then Success((Up(r.value.0), r.value.1))
      else Failure(Unexpected(AssignmentPattern))
    case PRest(n, arg) =>
      var r := SweepPat(m, arg, RestElement, parent);
      if r.Failure? then Failure(r.error)
      else if r.value.0.Kept? then Success((Kept(PRest(n, r.value.0.value)), r.value.1))
      else if Upward(r.value.0) then Success((Up(r.value.0), r.value.1))
      else Failure(Unexpected(RestElement))
    case POther(_, _) => Success((Kept(p), 0))
  }

  function SweepProp(m: Rule, q: PropPat): (r: Result<(Fate<PropPat>, nat), Error>)
    requires RuleOk(m)
    ensures r.Success? ==> PropShrinks(q, r.value.0, r.value.1)
  {
    match q
    case PProp(n, value) =>
      var r := SweepPat(m, value, ObjectProperty, ObjectPattern);
      if r.Failure? then Failure(r.error)
      else if r.value.0.Kept? then Success((Kept(PProp(n, r.value.0.value)), r.value.1))
      else if Upward(r.value.0) then Success((Up(r.value.0), r.value.1))
      else Failure(Unexpected(ObjectProperty))
    case PRestProp(n, arg) =>
      var r := SweepPat(m, arg, RestElement, ObjectPattern);
      if r.Failure? then Failure(r.error)
      else if r.value.0.Kept? then Success((Kept(PRestProp(n, r.value.0.value)), r.value.1))
      else if Upward(r.value.0) then Success((Up(r.value.0), r.value.1))
      else Failure(Unexpected(RestElement))
  }

  /** An object pattern's members in order; a removed member is dropped from the list. */
  function SweepProps(m: Rule, props: seq<PropPat>): (r: Result<(Fate<seq<PropPat>>, nat), Error>)
    requires RuleOk(m)
    ensures r.Success? ==> PropsShrink(props, r.value.0, r.value.1)
  {
    if props == [] then Success((Kept([]), 0))
    else
      var h := SweepProp(m, props[0]);
      if h.Failure? then Failure(h.error)
      else if Upward(h.value.0) then Success((Up(h.value.0), h.value.1))
      else if h.value.0.Nulled? then Failure(Unexpected(ObjectPattern))
      else
        var t := SweepProps(m, props[1..]);
        if t.Failure? then Failure(t.error)
        else if !t.value.0.Kept? then Success((t.value.0, h.value.1 + t.value.1))
        else if h.value.0.Kept? then Success((Kept([h.value.0.value] + t.value.0.value), h.value.1 + t.value.1))
        else Success((Kept(t.value.0.value), h.value.1 + t.value.1))
  }

  function SweepElem(m: Rule, e: Elem, owner: NodeKind): (r: Result<(Fate<Elem>, nat), Error>)
    requires RuleOk(m)
    ensures r.Success? ==> ElemShrinks(e, r.value.0, r.value.1)
  {
    match e
    case Hole => Success((Kept(Hole), 0))
    case Item(p) =>
      var r := SweepPat(m, p, ArrayPattern, owner);
      if r.Failure? then Failure(r.error)
      else if r.value.0.Kept? then Success((Kept(Item(r.value.0.value)), r.value.1))
      else Success((Recast(r.value.0), r.value.1))
  }

  /**
   * An array pattern's slots in order; a slot whose pattern is nulled
   * becomes a hole in place, and a removed one (a rest element) is
   * dropped.
   */
  function SweepElems(m: Rule, elems: seq<Elem>, owner: NodeKind): (r: Result<(Fate<seq<Elem>>, nat), Error>)
    requires RuleOk(m)
    ensures r.Success? ==> ElemsShrink(elems, r.value.0, r.value.1)
  {
    if elems == [] then Success((Kept([]), 0))
    else
      var h := SweepElem(m, elems[0], owner);
      if h.Failure? then Failure(h.error)
      else if Upward(h.value.0) then Success((Up(h.value.0), h.value.1))
      else
        var t := SweepElems(m, elems[1..], owner);
        if t.Failure? then Failure(t.error)
        else if !t.value.0.Kept? then Success((t.value.0, h.value.1 + t.value.1))
        else if h.value.0.Kept? then Success((Kept([h.value.0.value] + t.value.0.value), h.value.1 + t.value.1))
        else if h.value.0.Nulled? then Success((Kept([Hole] + t.value.0.value), h.value.1 + t.value.1))
        else Success((Kept(t.value.0.value), h.value.1 + t.value.1))
  }

  /** A function's parameters, under the pattern visitors; `owner` is the function's kind. */
  function SweepParams(m: Rule, ps: seq<Pat>, owner: NodeKind, grand: NodeKind): (r: Result<(Fate<seq<Pat>>, nat), Error>)
    requires RuleOk(m)
    ensures r.Success? ==> PatsShrink(ps, r.value.0, r.value.1)
  {
    if ps == [] then Success((Kept([]), 0))
    else
      var h := SweepPat(m, ps[0], owner, grand);
      if h.Failure? then Failure(h.error)
      else if Upward(h.value.0) then Success((Up(h.value.0), h.value.1))
      else if h.value.0.Nulled? then Failure(Unexpected(owner))
      else
        var t := SweepParams(m, ps[1..], owner, grand);
        if t.Failure? then Failure(t.error)
        else if !t.value.0.Kept? then Success((t.value.0, h.value.1 + t.value.1))
        else if h.value.0.Kept? then Success((Kept([h.value.0.value] + t.value.0.value), h.value.1 + t.value.1))
        else Success((Kept(t.value.0.value), h.value.1 + t.value.1))
  }

  predicate NodeShrinks(n: Node, f: Fate<Node>, c: nat) {
    if f.Kept? then NodeSize(f.value) + c <= NodeSize(n) && (c == 0 ==> f.value == n)
    else 1 <= c <= NodeSize(n) + Slack(f)
  }

  predicate DeclShrinks(d: Declarator, f: Fate<Declarator>, c: nat) {
    if f.Kept? then DeclSize(f.value) + c <= DeclSize(d) && (c == 0 ==> f.value == d)
    else 1 <= c <= DeclSize(d) + Slack(f)
  }

  predicate NodesShrink(ns: seq<Node>, f: Fate<seq<Node>>, c: nat) {
    if f.Kept? then NodesSize(f.value) + c <= NodesSize(ns) && (c == 0 ==> f.value == ns)
    else 1 <= c <= NodesSize(ns) + 1 + Slack(f)
  }

  predicate DeclsShrink(ds: seq<Declarator>, f: Fate<seq<Declarator>>, c: nat) {
    if f.Kept? then DeclsSize(f.value) + c <= DeclsSize(ds) && (c == 0 ==> f.value == ds)
    else 1 <= c <= DeclsSize(ds) + 1 + Slack(f)
  }

  /** The import specifiers that stay, in order. */
  function KeepSpecs(env: Env, specs: seq<Ident>): (r: seq<Ident>)
    requires ScopeOk(env.scope)
    ensures |r| <= |specs|
    ensures |r| == |specs| ==> r == specs
  {
    if specs == [] then []
    else (if ShouldBeRemoved(env, specs[0]) then [] else [specs[0]]) + KeepSpecs(env, specs[1..])
  }

  /**
   * One visit of node `n` at `site`.  `within` says whether the pattern
   * visitors treat patterns below `n` as being inside a declarator.
   */
  function VisitNode(env: Env, n: Node, site: Site, within: bool): (r: Result<(Fate<Node>, nat), Error>)
    requires ScopeOk(env.scope)
    ensures r.Success? ==> NodeShrinks(n, r.value.0, r.value.1)
    decreases NodeSize(n), 2
  {
    match n
    case Import(m, specs) =>
      var kept := KeepSpecs(env, specs);
      if |kept| < |specs| && kept == [] then Success((Gone, |specs|))
      else Success((Kept(Import(m, kept)), |specs| - |kept|))
    case VarDecl(m, decls) =>
      // Removing the last declarator removes the declaration (a Babel removal hook).
      var r := VisitDecls(env, decls);
      if r.Failure? then Failure(r.error)
      else if !r.value.0.Kept? then Success((Recast(r.value.0), r.value.1))
      else if decls != [] && r.value.0.value == [] then Success((Gone, r.value.1))
      else Success((Kept(VarDecl(m, r.value.0.value)), r.value.1))
    case Func(_, _, _, _, _) => VisitFunc(env, n, site, within)
    case Assign(_, _, _) => VisitAssign(env, n, site, within)
    case Other(m, t, children) =>
      // Removing a statement's expression removes the statement (a Babel removal hook).
      var r := VisitNodes(env, children, InOther(OtherKind(t)), within);
      if r.Failure? then Failure(r.error)
      else if !r.value.0.Kept? then Success((Recast(r.value.0), r.value.1))
      else if t == "ExpressionStatement" && children != [] && r.value.0.value == [] then Success((Gone, r.value.1))
      else Success((Kept(Other(m, t, r.value.0.value)), r.value.1))
  }

  /**
   * A function node: removed (with its declarator or assignment, when it
   * is the value of one) if the identifier naming it should be removed;
   * otherwise its parameters go through the pattern visitors and its body
   * is visited.
   */
  function VisitFunc(env: Env, n: Node, site: Site, within: bool): (r: Result<(Fate<Node>, nat), Error>)
    requires ScopeOk(env.scope) && n.Func?
    ensures r.Success? ==> NodeShrinks(n, r.value.0, r.value.1)
    decreases NodeSize(n), 1
  {
    var name := FromFunction(site, n.kind, n.id);
    if name.Some? && ShouldBeRemoved(env, name.value) then
      Success((if site.InDeclarator? || site.InAssignment? then ParentGone else Gone, 1))
    else
      var rp := SweepParams(EmptyRule(within), n.params, FuncNodeKind(n.kind), SiteKind(site));
      if rp.Failure? then Failure(rp.error)
      else if !rp.value.0.Kept? then Success((Recast(rp.value.0), rp.value.1))
      else
        var rb := VisitNodes(env, n.body, InOther(OtherKind("BlockStatement")), within);
        if rb.Failure? then Failure(rb.error)
        else if !rb.value.0.Kept? then Success((Recast(rb.value.0), rp.value.1 + rb.value.1))
        else Success((Kept(Func(n.node, n.kind, n.id, rp.value.0.value, rb.value.0.value)), rp.value.1 + rb.value.1))
  }

  /**
   * An assignment expression: the pattern visitors on its `left`, then
   * its `right`, where a function that goes takes the assignment with it.
   */
  function VisitAssign(env: Env, n: Node, site: Site, within: bool): (r: Result<(Fate<Node>, nat), Error>)
    requires ScopeOk(env.scope) && n.Assign?
    ensures r.Success? ==> NodeShrinks(n, r.value.0, r.value.1)
    decreases NodeSize(n), 1
  {
    var rl := SweepPat(EmptyRule(within), n.left, AssignmentExpression, SiteKind(site));
    if rl.Failure? then Failure(rl.error)
    else if Upward(rl.value.0) then Success((Up(rl.value.0), rl.value.1))
    else if !rl.value.0.Kept? then Failure(Unexpected(AssignmentExpression))
    else if n.right.None? then Success((Kept(Assign(n.node, rl.value.0.value, None)), rl.value.1))
    else
      var rr := VisitNode(env, n.right.value, InAssignment(rl.value.0.value), within);
      if rr.Failure? then Failure(rr.error)
      else if Upward(rr.value.0) then Success((Up(rr.value.0), rl.value.1 + rr.value.1))
      else if rr.value.0.Nulled? then Failure(Unexpected(AssignmentExpression))
      else if rr.value.0.Gone? then Success((Kept(Assign(n.node, rl.value.0.value, None)), rl.value.1 + rr.value.1))
      else Success((Kept(Assign(n.node, rl.value.0.value, Some(rr.value.0.value))), rl.value.1 + rr.value.1))
  }

  /** Sibling statements or expressions in order; a removed one is dropped. */
  function VisitNodes(env: Env, ns: seq<Node>, site: Site, within: bool): (r: Result<(Fate<seq<Node>>, nat), Error>)
    requires ScopeOk(env.scope)
    ensures r.Success? ==> NodesShrink(ns, r.value.0, r.value.1)
    decreases NodesSize(ns), 3
  {
    if ns == [] then Success((Kept([]), 0))
    else
      var h := VisitNode(env, ns[0], site, within);
      if h.Failure? then Failure(h.error)
      else if Upward(h.value.0) then Success((Up(h.value.0), h.value.1))
      else if h.value.0.Nulled? then Failure(Unexpected(SiteKind(site)))
      else
        var t := VisitNodes(env, ns[1..], site, within);
        if t.Failure? then Failure(t.error)
        else if !t.value.0.Kept? then Success((t.value.0, h.value.1 + t.value.1))
        else if h.value.0.Kept? then Success((Kept([h.value.0.value] + t.value.0.value), h.value.1 + t.value.1))
        else Success((Kept(t.value.0.value), h.value.1 + t.value.1))
  }

  /**
   * The fate of a declarator whose `id` slot received fate `f`: a removal
   * of the declarator itself removes it, anything else done to the slot
   * is an error.
   */
  function IdSlot(d: Declarator, f: Fate<Pat>, c: nat): (r: Result<(Fate<Declarator>, nat), Error>)
    requires !f.Kept?
    ensures r.Success? ==> r.value == (Gone, c)
  {
    if f.ParentGone? then Success((Gone, c)) else Failure(Unexpected(VariableDeclarator))
  }

  /**
   * One visit of a declarator: the declarator visitor first (a plain
   * identifier that should be removed takes the declarator with it; in an
   * object or array pattern the unreferenced identifiers are cut out),
   * then the pattern visitors on the `id`, then the `init`.
   */
  function VisitDecl(env: Env, d: Declarator): (r: Result<(Fate<Declarator>, nat), Error>)
    requires ScopeOk(env.scope)
    ensures r.Success? ==> DeclShrinks(d, r.value.0, r.value.1)
    ensures r.Success? ==> r.value.0.Kept? || r.value.0.Gone?
    decreases DeclSize(d), 2
  {
    if d.id.PId? && ShouldBeRemoved(env, d.id.id) then Success((Gone, 1))
    else
      var r1 :=
        if !(d.id.PObj? || d.id.PArr?) then Success((Kept(d.id), 0))
        else if FindVariables(d.id).Failure? then Failure(FindVariables(d.id).error)
        else SweepPat(VarRule(env.scope), d.id, VariableDeclarator, VariableDeclaration);
      if r1.Failure? then Failure(r1.error)
      else if !r1.value.0.Kept? then IdSlot(d, r1.value.0, r1.value.1)
      else
        var r2 := SweepPat(EmptyRule(true), r1.value.0.value, VariableDeclarator, VariableDeclaration);
        if r2.Failure? then Failure(r2.error)
        else if !r2.value.0.Kept? then IdSlot(d, r2.value.0, r1.value.1 + r2.value.1)
        else VisitInit(env, d, r2.value.0.value, r1.value.1 + r2.value.1)
  }

  /**
   * The rest of a declarator's visit once its `id` stays (as `id`, after
   * `c` removals): its `init`, where a function that goes takes the
   * declarator with it.
   */
  function VisitInit(env: Env, d: Declarator, id: Pat, c: nat): (r: Result<(Fate<Declarator>, nat), Error>)
    requires ScopeOk(env.scope)
    requires PatSize(id) + c <= PatSize(d.id) && (c == 0 ==> id == d.id)
    ensures r.Success? ==> DeclShrinks(d, r.value.0, r.value.1)
    ensures r.Success? ==> r.value.0.Kept? || r.value.0.Gone?
    decreases DeclSize(d), 1
  {
    if d.init.None? then Success((Kept(Declarator(d.node, id, None)), c))
    else
      var r3 := VisitNode(env, d.init.value, InDeclarator(id), !env.idOnly);
      if r3.Failure? then Failure(r3.error)
      else if r3.value.0.ParentGone? then Success((Gone, c + r3.value.1))
      else if r3.value.0.Gone? then Success((Kept(Declarator(d.node, id, None)), c + r3.value.1))
      else if !r3.value.0.Kept? then Failure(Unexpected(VariableDeclarator))
      else Success((Kept(Declarator(d.node, id, Some(r3.value.0.value))), c + r3.value.1))
  }

  /** A declaration's declarators in order; a removed one is dropped. */
  function VisitDecls(env: Env, ds: seq<Declarator>): (r: Result<(Fate<seq<Declarator>>, nat), Error>)
    requires ScopeOk(env.scope)
    ensures r.Success? ==> DeclsShrink(ds, r.value.0, r.value.1)
    decreases DeclsSize(ds), 3
  {
    if ds == [] then Success((Kept([]), 0))
    else
      var h := VisitDecl(env, ds[0]);
      if h.Failure? then Failure(h.error)
      else
        var t := VisitDecls(env, ds[1..]);
        if t.Failure? then Failure(t.error)
        else if !t.value.0.Kept? then Success((t.value.0, h.value.1 + t.value.1))
        else if h.value.0.Kept? then Success((Kept([h.value.0.value] + t.value.0.value), h.value.1 + t.value.1))
        else Success((Kept(t.value.0.value), h.value.1 + t.value.1))
  }

  /**
   * One pass over the program: the new program and the number of
   * removals counted, or the error the pass throws.
   */
  function Pass(env: Env, prog: seq<Node>): (r: Result<(seq<Node>, nat), Error>)
    requires ScopeOk(env.scope)
    ensures r.Success? ==> NodesSize(r.value.0) + r.value.1 <= NodesSize(prog)
    ensures r.Success? && r.value.1 == 0 ==> r.value.0 == prog
  {
    var r := VisitNodes(env, prog, InOther(OtherKind("Program")), false);
    if r.Failure? then Failure(r.error)
    else if !r.value.0.Kept? then Failure(Unexpected(OtherKind("Program")))
    else Success((r.value.0.value, r.value.1))
  }

  // Where a removal by the declarator rule can reach: an identifier's
  // own slot, its property or rest element, or through a default value
  // the property or slot holding it; never an object or array pattern.

  lemma {:induction false} VarRuleReach(s: Scope, p: Pat, parent: NodeKind, grand: NodeKind)
    requires ScopeOk(s)
    requires SweepPat(VarRule(s), p, parent, grand).Success?
    ensures var f := SweepPat(VarRule(s), p, parent, grand).value.0;
      && (f.Gone? ==> p.PRest?)
      && (f.Nulled? ==> parent == ArrayPattern)
      && (f.ParentGone? ==> parent in {ObjectProperty, RestElement})
      && (f.ParentNulled? ==> parent == AssignmentPattern && grand == ArrayPattern)
      && (f.GrandGone? ==> parent == AssignmentPattern && grand == ObjectProperty)
  {
    match p
    case PId(_) =>
    case PObj(_, props) => VarRuleReachProps(s, props);
    case PArr(_, elems) => VarRuleReachElems(s, elems, parent);
    case PAssign(_, left) => VarRuleReach(s, left, AssignmentPattern, parent);
    case PRest(_, arg) => VarRuleReach(s, arg, RestElement, parent);
    case POther(_, _) =>
  }

  lemma {:induction false} VarRuleReachProp(s: Scope, q: PropPat)
    requires ScopeOk(s)
    requires SweepProp(VarRule(s), q).Success?
    ensures var f := SweepProp(VarRule(s), q).value.0;
      f.Kept? || f.Gone?
  {
    match q
    case PProp(_, value) => VarRuleReach(s, value, ObjectProperty, ObjectPattern);
    case PRestProp(_, arg) => VarRuleReach(s, arg, RestElement, ObjectPattern);
  }

  lemma {:induction false} VarRuleReachProps(s: Scope, props: seq<PropPat>)
    requires ScopeOk(s)
    requires SweepProps(VarRule(s), props).Success?
    ensures SweepProps(VarRule(s), props).value.0.Kept?
  {
    if props != [] {
      VarRuleReachProp(s, props[0]);
      VarRuleReachProps(s, props[1..]);
    }
  }

  lemma {:induction false} VarRuleReachElem(s: Scope, e: Elem, owner: NodeKind)
    requires ScopeOk(s)
    requires SweepElem(VarRule(s), e, owner).Success?
    ensures var f := SweepElem(VarRule(s), e, owner).value.0;
      f.Kept? || f.Nulled? || (f.Gone? && e.pat.PRest?)
  {
    if e.Item? {
      VarRuleReach(s, e.pat, ArrayPattern, owner);
    }
  }

  lemma {:induction false} VarRuleReachElems(s: Scope, elems: seq<Elem>, owner: NodeKind)
    requires ScopeOk(s)
    requires SweepElems(VarRule(s), elems, owner).Success?
    ensures SweepElems(VarRule(s), elems, owner).value.0.Kept?
  {
    if elems != [] {
      VarRuleReachElem(s, elems[0], owner);
      VarRuleReachElems(s, elems[1..], owner);
    }
  }

  // The declarator rule removes exactly the unreferenced identifiers:
  // what the pattern binds afterwards is what it bound before, filtered
  // by `IsReferenced`, and one removal is counted per identifier removed.

  lemma {:induction false} VarRulePat(s: Scope, p: Pat, parent: NodeKind, grand: NodeKind)
    requires ScopeOk(s) && FindVariables(p).Success?
    requires SweepPat(VarRule(s), p, parent, grand).Success?
    ensures var vars := FindVariables(p).value;
      var (f, c) := SweepPat(VarRule(s), p, parent, grand).value;
      && c == |vars| - |ReferencedOnly(s, vars)|
      && (f.Kept? ==> FindVariables(f.value) == Success(ReferencedOnly(s, vars)))
      && (!f.Kept? ==> ReferencedOnly(s, vars) == [])
  {
    match p
    case PId(x) =>
      assert [x][1..] == [];
      if IsReferenced(s, x) {
        assert SweepPat(VarRule(s), p, parent, grand) == Success((Kept(p), 0));
        assert ReferencedOnly(s, [x]) == [x] + ReferencedOnly(s, []) == [x];
        assert FindVariables(p) == Success([x]);
      }
    case PObj(n, props) => VarRuleProps(s, props);
    case PArr(n, elems) => VarRuleElems(s, elems, parent);
    case PAssign(n, left) => VarRulePat(s, left, AssignmentPattern, parent);
    case PRest(n, arg) => VarRulePat(s, arg, RestElement, parent);
    case POther(_, _) =>
  }

  lemma {:induction false} VarRuleProp(s: Scope, q: PropPat)
    requires ScopeOk(s) && FindInProp(q).Success?
    requires SweepProp(VarRule(s), q).Success?
    ensures var vars := FindInProp(q).value;
      var (f, c) := SweepProp(VarRule(s), q).value;
      && c == |vars| - |ReferencedOnly(s, vars)|
      && (f.Kept? ==> FindInProp(f.value) == Success(ReferencedOnly(s, vars)))
      && (!f.Kept? ==> ReferencedOnly(s, vars) == [])
  {
    match q
    case PProp(n, value) => VarRulePat(s, value, ObjectProperty, ObjectPattern);
    case PRestProp(n, arg) => VarRulePat(s, arg, RestElement, ObjectPattern);
  }

  lemma {:induction false} VarRuleProps(s: Scope, props: seq<PropPat>)
    requires ScopeOk(s) && FindInProps(props).Success?
    requires SweepProps(VarRule(s), props).Success?
    ensures var vars := FindInProps(props).value;
      var (f, c) := SweepProps(VarRule(s), props).value;
      && f.Kept?
      && c == |vars| - |ReferencedOnly(s, vars)|
      && FindInProps(f.value) == Success(ReferencedOnly(s, vars))
  {
    VarRuleReachProps(s, props);
    if props != [] {
      VarRuleReachProp(s, props[0]);
      VarRuleProp(s, props[0]);
      VarRuleProps(s, props[1..]);
      var hv := FindInProp(props[0]).value;
      var tv := FindInProps(props[1..]).value;
      ReferencedOnlyAppend(s, hv, tv);
      var h := SweepProp(VarRule(s), props[0]).value.0;
      var t := SweepProps(VarRule(s), props[1..]).value.0.value;
      if h.Kept? {
        assert ([h.value] + t)[0] == h.value;
        assert ([h.value] + t)[1..] == t;
      } else {
        assert [] + ReferencedOnly(s, tv) == ReferencedOnly(s, tv);
      }
    }
  }

  lemma {:induction false} VarRuleElem(s: Scope, e: Elem, owner: NodeKind)
    requires ScopeOk(s) && FindInElem(e).Success?
    requires SweepElem(VarRule(s), e, owner).Success?
    ensures var vars := FindInElem(e).value;
      var (f, c) := SweepElem(VarRule(s), e, owner).value;
      && c == |vars| - |ReferencedOnly(s, vars)|
      && (f.Kept? ==> FindInElem(f.value) == Success(ReferencedOnly(s, vars)))
      && (!f.Kept? ==> ReferencedOnly(s, vars) == [])
  {
    match e
    case Hole =>
    case Item(p) => VarRulePat(s, p, ArrayPattern, owner);
  }

  lemma {:induction false} VarRuleElems(s: Scope, elems: seq<Elem>, owner: NodeKind)
    requires ScopeOk(s) && FindInElems(elems).Success?
    requires SweepElems(VarRule(s), elems, owner).Success?
    ensures var vars := FindInElems(elems).value;
      var (f, c) := SweepElems(VarRule(s), elems, owner).value;
      && f.Kept?
      && c == |vars| - |ReferencedOnly(s, vars)|
      && FindInElems(f.value) == Success(ReferencedOnly(s, vars))
  {
    VarRuleReachElems(s, elems, owner);
    if elems != [] {
      VarRuleReachElem(s, elems[0], owner);
      VarRuleElem(s, elems[0], owner);
      VarRuleElems(s, elems[1..], owner);
      var hv := FindInElem(elems[0]).value;
      var tv := FindInElems(elems[1..]).value;
      ReferencedOnlyAppend(s, hv, tv);
      var h := SweepElem(VarRule(s), elems[0], owner).value.0;
      var t := SweepElems(VarRule(s), elems[1..], owner).value.0.value;
      if h.Kept? {
        assert ([h.value] + t)[0] == h.value;
        assert ([h.value] + t)[1..] == t;
      } else if h.Nulled? {
        assert ([Hole] + t)[0] == Hole;
        assert ([Hole] + t)[1..] == t;
        assert [] + ReferencedOnly(s, tv) == ReferencedOnly(s, tv);
      } else {
        assert [] + ReferencedOnly(s, tv) == ReferencedOnly(s, tv);
      }
    }
  }

  /**
   * What the declarator rule does to one array slot: a hole stays a hole,
   * and a slot holding an identifier, bare or behind a default value,
   * becomes a hole exactly when the identifier is unreferenced.
   */
  predicate SlotSwept(s: Scope, e: Elem, after: Elem)
    requires ScopeOk(s)
  {
    && (e == Hole ==> after == Hole)
    && (e.Item? && e.pat.PId? ==> after == if IsReferenced(s, e.pat.id) then e else Hole)
    && (e.Item? && e.pat.PAssign? && e.pat.left.PId? ==>
          after == if IsReferenced(s, e.pat.left.id) then e else Hole)
  }

  lemma VarRuleSlot(s: Scope, e: Elem, owner: NodeKind)
    requires ScopeOk(s) && !(e.Item? && e.pat.PRest?)
    requires SweepElem(VarRule(s), e, owner).Success?
    ensures var f := SweepElem(VarRule(s), e, owner).value.0;
      (f.Kept? && SlotSwept(s, e, f.value)) || (f.Nulled? && SlotSwept(s, e, Hole))
  {
    VarRuleReachElem(s, e, owner);
    if e.Item? && e.pat.PAssign? && e.pat.left.PId? {
      var x := e.pat.left.id;
      assert SweepPat(VarRule(s), PId(x), AssignmentPattern, ArrayPattern).value.0 ==
        if IsReferenced(s, x) then Kept(PId(x)) else ParentNulled;
    }
  }

  /**
   * In an array pattern without rest elements, the declarator rule keeps
   * the number of slots and sweeps each slot in place.
   */
  lemma {:induction false} VarRuleKeepsSlots(s: Scope, elems: seq<Elem>, owner: NodeKind)
    requires ScopeOk(s)
    requires forall i :: 0 <= i < |elems| ==> !(elems[i].Item? && elems[i].pat.PRest?)
    requires SweepElems(VarRule(s), elems, owner).Success?
    ensures var f := SweepElems(VarRule(s), elems, owner).value.0;
      && f.Kept? && |f.value| == |elems|
      && forall i :: 0 <= i < |elems| ==> SlotSwept(s, elems[i], f.value[i])
  {
    if elems != [] {
      assert forall i :: 1 <= i < |elems| ==> elems[i] == elems[1..][i - 1];
      VarRuleSlot(s, elems[0], owner);
      VarRuleReachElems(s, elems[1..], owner);
      VarRuleKeepsSlots(s, elems[1..], owner);
      var h := SweepElem(VarRule(s), elems[0], owner).value.0;
      var t := SweepElems(VarRule(s), elems[1..], owner).value.0.value;
      var l := SweepElems(VarRule(s), elems, owner).value.0.value;
      assert l == [if h.Kept? then h.value else Hole] + t;
      assert forall i :: 1 <= i < |elems| ==> l[i] == t[i - 1];
    }
  }

  // The pattern visitors: outside a declarator they change nothing, and
  // inside one they count a removal exactly when the pattern holds an
  // empty object pattern or an all-hole array pattern.

  /** Some sub-pattern is an object pattern without members or an array pattern with only holes. */
  predicate HasEmpty(p: Pat)
    decreases PatSize(p), 0, 0
  {
    match p
    case PObj(_, props) => props == [] || SomePropHasEmpty(props)
    case PArr(_, elems) => AllHoles(elems) || SomeElemHasEmpty(elems)
    case PAssign(_, left) => HasEmpty(left)
    case PRest(_, arg) => HasEmpty(arg)
    case _ => false
  }

  predicate PropHasEmpty(q: PropPat)
    decreases PropSize(q), 0, 0
  {
    match q
    case PProp(_, value) => HasEmpty(value)
    case PRestProp(_, arg) => HasEmpty(arg)
  }

  predicate SomePropHasEmpty(props: seq<PropPat>)
    decreases PropsSize(props), 1, 0
  {
    props != [] && (PropHasEmpty(props[0]) || SomePropHasEmpty(props[1..]))
  }

  predicate ElemHasEmpty(e: Elem)
    decreases ElemSize(e), 1, 0
  {
    e.Item? && HasEmpty(e.pat)
  }

  predicate SomeElemHasEmpty(elems: seq<Elem>)
    decreases ElemsSize(elems), 2, |elems|
  {
    elems != [] && (ElemHasEmpty(elems[0]) || SomeElemHasEmpty(elems[1..]))
  }

  lemma {:induction false} EmptyRuleOff(p: Pat, parent: NodeKind, grand: NodeKind)
    ensures SweepPat(EmptyRule(false), p, parent, grand) == Success((Kept(p), 0))
    decreases PatSize(p), 0, 0
  {
    match p
    case PId(_) =>
    case PObj(_, props) => EmptyRuleOffProps(props);
    case PArr(_, elems) => EmptyRuleOffElems(elems, parent);
    case PAssign(_, left) => EmptyRuleOff(left, AssignmentPattern, parent);
    case PRest(_, arg) => EmptyRuleOff(arg, RestElement, parent);
    case POther(_, _) =>
  }

  lemma {:induction false} EmptyRuleOffProps(props: seq<PropPat>)
    ensures SweepProps(EmptyRule(false), props) == Success((Kept(props), 0))
    decreases PropsSize(props), 1, 0
  {
    if props != [] {
      assert PropsSize(props) == PropSize(props[0]) + PropsSize(props[1..]);
      match props[0] {
        case PProp(_, value) => EmptyRuleOff(value, ObjectProperty, ObjectPattern);
        case PRestProp(_, arg) => EmptyRuleOff(arg, RestElement, ObjectPattern);
      }
      EmptyRuleOffProps(props[1..]);
      assert [props[0]] + props[1..] == props;
    }
  }

  lemma {:induction false} EmptyRuleOffElems(elems: seq<Elem>, owner: NodeKind)
    ensures SweepElems(EmptyRule(false), elems, owner) == Success((Kept(elems), 0))
    decreases ElemsSize(elems), 1, |elems|
  {
    if elems != [] {
      assert ElemsSize(elems) == ElemSize(elems[0]) + ElemsSize(elems[1..]);
      if elems[0].Item? {
        EmptyRuleOff(elems[0].pat, ArrayPattern, owner);
      }
      EmptyRuleOffElems(elems[1..], owner);
      assert [elems[0]] + elems[1..] == elems;
    }
  }

  /** Outside a declarator, function parameters are left as they are. */
  lemma {:induction false} EmptyRuleOffParams(ps: seq<Pat>, owner: NodeKind, grand: NodeKind)
    ensures SweepParams(EmptyRule(false), ps, owner, grand) == Success((Kept(ps), 0))
  {
    if ps != [] {
      EmptyRuleOff(ps[0], owner, grand);
      EmptyRuleOffParams(ps[1..], owner, grand);
      assert [ps[0]] + ps[1..] == ps;
    }
  }

  lemma {:induction false} EmptyRuleCounts(p: Pat, parent: NodeKind, grand: NodeKind)
    ensures !HasEmpty(p) ==> SweepPat(EmptyRule(true), p, parent, grand) == Success((Kept(p), 0))
    ensures SweepPat(EmptyRule(true), p, parent, grand).Success? ==>
      (SweepPat(EmptyRule(true), p, parent, grand).value.1 == 0 <==> !HasEmpty(p))
    decreases PatSize(p), 2, 0
  {
    if p.PObj? {
      EmptyRuleCountsObj(p, parent, grand);
    } else if p.PArr? {
      EmptyRuleCountsArr(p, parent, grand);
    } else {
      EmptyRuleCountsOther(p, parent, grand);
    }
  }

  /** The cases of `EmptyRuleCounts` other than object and array patterns. */
  lemma {:induction false} EmptyRuleCountsOther(p: Pat, parent: NodeKind, grand: NodeKind)
    requires !p.PObj? && !p.PArr?
    ensures !HasEmpty(p) ==> SweepPat(EmptyRule(true), p, parent, grand) == Success((Kept(p), 0))
    ensures SweepPat(EmptyRule(true), p, parent, grand).Success? ==>
      (SweepPat(EmptyRule(true), p, parent, grand).value.1 == 0 <==> !HasEmpty(p))
    decreases PatSize(p), 1, 0
  {
    if p.PAssign? || p.PRest? {
      var inner := if p.PAssign? then p.left else p.arg;
      var kind := if p.PAssign? then AssignmentPattern else RestElement;
      EmptyRuleCounts(inner, kind, parent);
      assert HasEmpty(p) == HasEmpty(inner);
      var r := SweepPat(EmptyRule(true), inner, kind, parent);
      if r.Success? && r.value.0.Kept? {
        var q := if p.PAssign? then PAssign(p.node, r.value.0.value) else PRest(p.node, r.value.0.value);
        assert SweepPat(EmptyRule(true), p, parent, grand) == Success((Kept(q), r.value.1));
      }
    }
  }

  /** The object-pattern case of `EmptyRuleCounts`. */
  lemma {:induction false} EmptyRuleCountsObj(p: Pat, parent: NodeKind, grand: NodeKind)
    requires p.PObj?
    ensures !HasEmpty(p) ==> SweepPat(EmptyRule(true), p, parent, grand) == Success((Kept(p), 0))
    ensures SweepPat(EmptyRule(true), p, parent, grand).Success? ==>
      (SweepPat(EmptyRule(true), p, parent, grand).value.1 == 0 <==> !HasEmpty(p))
    decreases PatSize(p), 1, 0
  {
    if p.props == [] {
      assert HasEmpty(p);
    } else {
      EmptyRuleCountsProps(p.props);
      var r := SweepProps(EmptyRule(true), p.props);
      assert HasEmpty(p) == SomePropHasEmpty(p.props);
      if r.Success? {
        if r.value.0.Kept? {
          assert SweepPat(EmptyRule(true), p, parent, grand) == Success((Kept(PObj(p.node, r.value.0.value)), r.value.1));
        } else {
          assert SweepPat(EmptyRule(true), p, parent, grand) == Success((Recast(r.value.0), r.value.1));
        }
      }
    }
  }

  /** The array-pattern case of `EmptyRuleCounts`. */
  lemma {:induction false} EmptyRuleCountsArr(p: Pat, parent: NodeKind, grand: NodeKind)
    requires p.PArr?
    ensures !HasEmpty(p) ==> SweepPat(EmptyRule(true), p, parent, grand) == Success((Kept(p), 0))
    ensures SweepPat(EmptyRule(true), p, parent, grand).Success? ==>
      (SweepPat(EmptyRule(true), p, parent, grand).value.1 == 0 <==> !HasEmpty(p))
    decreases PatSize(p), 1, 0
  {
    EmptyRuleCountsElems(p.elems, parent);
  }

  lemma {:induction false} EmptyRuleCountsProp(q: PropPat)
    ensures !PropHasEmpty(q) ==> SweepProp(EmptyRule(true), q) == Success((Kept(q), 0))
    ensures SweepProp(EmptyRule(true), q).Success? ==>
      (SweepProp(EmptyRule(true), q).value.1 == 0 <==> !PropHasEmpty(q))
    decreases PropSize(q), 2, 0
  {
    match q
    case PProp(_, value) => EmptyRuleCounts(value, ObjectProperty, ObjectPattern);
    case PRestProp(_, arg) => EmptyRuleCounts(arg, RestElement, ObjectPattern);
  }

  lemma {:induction false} EmptyRuleCountsProps(props: seq<PropPat>)
    ensures !SomePropHasEmpty(props) ==> SweepProps(EmptyRule(true), props) == Success((Kept(props), 0))
    ensures SweepProps(EmptyRule(true), props).Success? ==>
      (SweepProps(EmptyRule(true), props).value.1 == 0 <==> !SomePropHasEmpty(props))
    decreases PropsSize(props), 3, 0
  {
    if props != [] {
      assert PropsSize(props) == PropSize(props[0]) + PropsSize(props[1..]);
      EmptyRuleCountsProp(props[0]);
      EmptyRuleCountsProps(props[1..]);
      assert [props[0]] + props[1..] == props;
    }
  }

  lemma {:induction false} EmptyRuleCountsElem(e: Elem, owner: NodeKind)
    ensures !ElemHasEmpty(e) ==> SweepElem(EmptyRule(true), e, owner) == Success((Kept(e), 0))
    ensures SweepElem(EmptyRule(true), e, owner).Success? ==>
      (SweepElem(EmptyRule(true), e, owner).value.1 == 0 <==> !ElemHasEmpty(e))
    decreases ElemSize(e), 3, 0
  {
    if e.Item? {
      EmptyRuleCounts(e.pat, ArrayPattern, owner);
    }
  }

  lemma {:induction false} EmptyRuleCountsElems(elems: seq<Elem>, owner: NodeKind)
    ensures !SomeElemHasEmpty(elems) ==> SweepElems(EmptyRule(true), elems, owner) == Success((Kept(elems), 0))
    ensures SweepElems(EmptyRule(true), elems, owner).Success? ==>
      (SweepElems(EmptyRule(true), elems, owner).value.1 == 0 <==> !SomeElemHasEmpty(elems))
    decreases ElemsSize(elems), 4, |elems|
  {
    if elems != [] {
      assert ElemsSize(elems) == ElemSize(elems[0]) + ElemsSize(elems[1..]);
      EmptyRuleCountsElem(elems[0], owner);
      EmptyRuleCountsElems(elems[1..], owner);
      EmptyRuleCountsCons(elems, owner);
    }
  }

  /** The step of `EmptyRuleCountsElems`: from the first slot and the rest to the whole list. */
  lemma EmptyRuleCountsCons(elems: seq<Elem>, owner: NodeKind)
    requires elems != []
    requires !ElemHasEmpty(elems[0]) ==> SweepElem(EmptyRule(true), elems[0], owner) == Success((Kept(elems[0]), 0))
    requires SweepElem(EmptyRule(true), elems[0], owner).Success? ==>
      (SweepElem(EmptyRule(true), elems[0], owner).value.1 == 0 <==> !ElemHasEmpty(elems[0]))
    requires !SomeElemHasEmpty(elems[1..]) ==> SweepElems(EmptyRule(true), elems[1..], owner) == Success((Kept(elems[1..]), 0))
    requires SweepElems(EmptyRule(true), elems[1..], owner).Success? ==>
      (SweepElems(EmptyRule(true), elems[1..], owner).value.1 == 0 <==> !SomeElemHasEmpty(elems[1..]))
    ensures !SomeElemHasEmpty(elems) ==> SweepElems(EmptyRule(true), elems, owner) == Success((Kept(elems), 0))
    ensures SweepElems(EmptyRule(true), elems, owner).Success? ==>
      (SweepElems(EmptyRule(true), elems, owner).value.1 == 0 <==> !SomeElemHasEmpty(elems))
  {
    if !SomeElemHasEmpty(elems) {
      assert [elems[0]] + elems[1..] == elems;
    }
  }

  /** The specifiers kept are exactly those that should not be removed. */
  lemma {:induction false} KeepSpecsMembers(env: Env, specs: seq<Ident>)
    requires ScopeOk(env.scope)
    ensures forall x :: x in KeepSpecs(env, specs) <==> x in specs && !ShouldBeRemoved(env, x)
  {
    if specs != [] {
      KeepSpecsMembers(env, specs[1..]);
      assert forall x :: x in specs <==> x == specs[0] || x in specs[1..];
    }
  }

  /**
   * An import declaration: each specifier that should be removed goes
   * and counts once; the declaration goes as well when it had specifiers
   * and all of them went.  One without specifiers is left alone.
   */
  lemma ImportSwept(env: Env, m: NodeId, specs: seq<Ident>, site: Site, within: bool)
    requires ScopeOk(env.scope)
    ensures var r := VisitNode(env, Import(m, specs), site, within);
      && r.Success?
      && (r.value.0.Gone? <==> specs != [] && forall x :: x in specs ==> ShouldBeRemoved(env, x))
      && (r.value.0.Gone? ==> r.value.1 == |specs|)
      && (r.value.0.Kept? ==>
            && r.value.0.value.Import? && r.value.0.value.node == m
            && |r.value.0.value.specs| + r.value.1 == |specs|
            && forall x :: x in r.value.0.value.specs <==> x in specs && !ShouldBeRemoved(env, x))
      && (specs == [] ==> r.value == (Kept(Import(m, [])), 0))
  {
    KeepSpecsMembers(env, specs);
    if specs != [] && KeepSpecs(env, specs) != [] {
      assert KeepSpecs(env, specs)[0] in KeepSpecs(env, specs);
    }
  }

  /**
   * An assignment of a function to an identifier that should be removed
   * goes as a whole, counted once.
   */
  lemma AssignedFunctionSwept(env: Env, m: NodeId, x: Ident, f: Node, site: Site, within: bool)
    requires ScopeOk(env.scope) && f.Func? && ShouldBeRemoved(env, x)
    ensures VisitNode(env, Assign(m, PId(x), Some(f)), site, within) == Success((Gone, 1))
  {
    assert SweepPat(EmptyRule(within), PId(x), AssignmentExpression, SiteKind(site)) == Success((Kept(PId(x)), 0));
    assert VisitNode(env, f, InAssignment(PId(x)), within) == Success((ParentGone, 1));
  }

  /**
   * A function whose naming identifier should be removed goes, counted
   * once, and takes its declarator or assignment with it when it is the
   * value of one.  A function that stays is one whose naming identifier
   * should not be removed, and it keeps its node, kind and name.
   */
  lemma FunctionSwept(env: Env, n: Node, site: Site, within: bool)
    requires ScopeOk(env.scope) && n.Func?
    ensures var name := FromFunction(site, n.kind, n.id);
      name.Some? && ShouldBeRemoved(env, name.value) ==>
        VisitNode(env, n, site, within) == Success((if site.InDeclarator? || site.InAssignment? then ParentGone else Gone, 1))
    ensures var name := FromFunction(site, n.kind, n.id); var r := VisitNode(env, n, site, within);
      r.Success? && r.value.0.Kept? ==>
        && !(name.Some? && ShouldBeRemoved(env, name.value))
        && r.value.0.value.Func? && r.value.0.value.node == n.node
        && r.value.0.value.kind == n.kind && r.value.0.value.id == n.id
  {
  }

  /** A kept pattern is an identifier exactly when it was one, and then it is unchanged. */
  lemma SweepPatKeepsShape(m: Rule, p: Pat, parent: NodeKind, grand: NodeKind)
    requires RuleOk(m)
    ensures var r := SweepPat(m, p, parent, grand);
      r.Success? && r.value.0.Kept? ==> (r.value.0.value.PId? <==> p.PId?) && (p.PId? ==> r.value.0.value == p)
  {
  }

  /**
   * A declarator of a plain identifier that should be removed goes,
   * counted once.  A declarator that stays has an identifier `id` exactly
   * when it had one, and then the same one, which should not be removed.
   */
  lemma IdentDeclaratorSwept(env: Env, d: Declarator)
    requires ScopeOk(env.scope)
    ensures d.id.PId? && ShouldBeRemoved(env, d.id.id) ==> VisitDecl(env, d) == Success((Gone, 1))
    ensures var r := VisitDecl(env, d);
      r.Success? && r.value.0.Kept? ==>
        && r.value.0.value.node == d.node
        && (r.value.0.value.id.PId? <==> d.id.PId?)
        && (d.id.PId? ==> r.value.0.value.id == d.id && !ShouldBeRemoved(env, d.id.id))
  {
    if !(d.id.PId? && ShouldBeRemoved(env, d.id.id)) {
      var r1 :=
        if !(d.id.PObj? || d.id.PArr?) then Success((Kept(d.id), 0))
        else if FindVariables(d.id).Failure? then Failure(FindVariables(d.id).error)
        else SweepPat(VarRule(env.scope), d.id, VariableDeclarator, VariableDeclaration);
      if d.id.PObj? || d.id.PArr? {
        SweepPatKeepsShape(VarRule(env.scope), d.id, VariableDeclarator, VariableDeclaration);
      }
      if r1.Success? && r1.value.0.Kept? {
        SweepPatKeepsShape(EmptyRule(true), r1.value.0.value, VariableDeclarator, VariableDeclaration);
      }
    }
  }

  /** A declarator of a plain identifier that should be removed. */
  predicate DoomedDecl(env: Env, d: Declarator)
    requires ScopeOk(env.scope)
  {
    d.id.PId? && ShouldBeRemoved(env, d.id.id)
  }

  /**
   * A statement naming something that should be removed: a function
   * declaration, or a declaration with such a declarator.
   */
  predicate DoomedStatement(env: Env, n: Node)
    requires ScopeOk(env.scope)
  {
    || (n.Func? && n.kind == Declaration && n.id.Some? && ShouldBeRemoved(env, n.id.value))
    || (n.VarDecl? && exists d :: d in n.decls && DoomedDecl(env, d))
  }

  /** No declarator a visit of a declarator list keeps is doomed. */
  lemma {:induction false} DeclsKeptNotDoomed(env: Env, ds: seq<Declarator>)
    requires ScopeOk(env.scope)
    ensures var r := VisitDecls(env, ds);
      r.Success? && r.value.0.Kept? ==> forall d :: d in r.value.0.value ==> !DoomedDecl(env, d)
    decreases |ds|
  {
    if ds != [] {
      IdentDeclaratorSwept(env, ds[0]);
      DeclsKeptNotDoomed(env, ds[1..]);
    }
  }

  /** A statement a visit keeps, under a site that is not a declarator or an assignment, is not doomed. */
  lemma StatementKeptNotDoomed(env: Env, n: Node, site: Site, within: bool)
    requires ScopeOk(env.scope) && site.InOther?
    ensures var r := VisitNode(env, n, site, within);
      r.Success? && r.value.0.Kept? ==> !DoomedStatement(env, r.value.0.value)
  {
    match n
    case VarDecl(_, decls) => DeclsKeptNotDoomed(env, decls);
    case Func(_, _, _, _, _) => FunctionSwept(env, n, site, within);
    case _ =>
  }

  /** No statement a visit of a statement list keeps is doomed. */
  lemma {:induction false} StatementsKeptNotDoomed(env: Env, ns: seq<Node>, site: Site, within: bool)
    requires ScopeOk(env.scope) && site.InOther?
    ensures var r := VisitNodes(env, ns, site, within);
      r.Success? && r.value.0.Kept? ==> forall n :: n in r.value.0.value ==> !DoomedStatement(env, n)
    decreases |ns|
  {
    if ns != [] {
      StatementKeptNotDoomed(env, ns[0], site, within);
      StatementsKeptNotDoomed(env, ns[1..], site, within);
    }
  }

  /**
   * After a pass, no top-level function declaration and no top-level
   * declarator of a plain identifier is left whose identifier should be
   * removed under the crawl that pass started from.
   */
  lemma PassLeavesNoDoomed(env: Env, prog: seq<Node>)
    requires ScopeOk(env.scope)
    ensures Pass(env, prog).Success? ==> forall n :: n in Pass(env, prog).value.0 ==> !DoomedStatement(env, n)
  {
    StatementsKeptNotDoomed(env, prog, InOther(OtherKind("Program")), false);
  }

  /**
   * In the corrected pass the pattern visitors never see a function's
   * parameters as inside a declarator: they are never edited, and any
   * error comes from the function's body.
   */
  lemma CorrectedParamsUntouched(env: Env, n: Node, site: Site)
    requires ScopeOk(env.scope) && n.Func?
    ensures var r := VisitNode(env, n, site, false);
      && (r.Success? && r.value.0.Kept? ==> r.value.0.value.Func? && r.value.0.value.params == n.params)
      && (r.Failure? ==> VisitNodes(env, n.body, InOther(OtherKind("BlockStatement")), false).Failure?)
  {
    EmptyRuleOffParams(n.params, FuncNodeKind(n.kind), SiteKind(site));
  }

  /**
   * The whole elimination: passes, each on a fresh crawl of the current
   * tree, until a pass counts no removal.
   */
  function Sweep(crawl: seq<Node> -> Scope, candidates: Option<set<NodeId>>, idOnly: bool, prog: seq<Node>): Result<seq<Node>, Error>
    requires CrawlOk(crawl)
    decreases NodesSize(prog)
  {
    var r := Pass(Env(crawl(prog), candidates, idOnly), prog);
    if r.Failure? then Failure(r.error)
    else if r.value.1 == 0 then Success(r.value.0)
    else Sweep(crawl, candidates, idOnly, r.value.0)
  }

  /** The result is a fixed point: one more pass on it removes nothing. */
  lemma {:induction false} SweepFixedPoint(crawl: seq<Node> -> Scope, candidates: Option<set<NodeId>>, idOnly: bool, prog: seq<Node>)
    requires CrawlOk(crawl) && Sweep(crawl, candidates, idOnly, prog).Success?
    ensures var u := Sweep(crawl, candidates, idOnly, prog).value;
      Pass(Env(crawl(u), candidates, idOnly), u) == Success((u, 0))
    decreases NodesSize(prog)
  {
    var r := Pass(Env(crawl(prog), candidates, idOnly), prog);
    if r.value.1 != 0 {
      SweepFixedPoint(crawl, candidates, idOnly, r.value.0);
    }
  }

  /** Running the elimination on its own output changes nothing. */
  lemma SweepIdempotent(crawl: seq<Node> -> Scope, candidates: Option<set<NodeId>>, idOnly: bool, prog: seq<Node>)
    requires CrawlOk(crawl) && Sweep(crawl, candidates, idOnly, prog).Success?
    ensures var u := Sweep(crawl, candidates, idOnly, prog).value;
      Sweep(crawl, candidates, idOnly, u) == Success(u)
  {
    SweepFixedPoint(crawl, candidates, idOnly, prog);
  }

  /** The elimination never grows the program, and leaves it as it is exactly when the first pass removes nothing. */
  lemma {:induction false} SweepShrinks(crawl: seq<Node> -> Scope, candidates: Option<set<NodeId>>, idOnly: bool, prog: seq<Node>)
    requires CrawlOk(crawl) && Sweep(crawl, candidates, idOnly, prog).Success?
    ensures NodesSize(Sweep(crawl, candidates, idOnly, prog).value) <= NodesSize(prog)
    ensures Sweep(crawl, candidates, idOnly, prog).value == prog <==>
      Pass(Env(crawl(prog), candidates, idOnly), prog).value.1 == 0
    decreases NodesSize(prog)
  {
    var r := Pass(Env(crawl(prog), candidates, idOnly), prog);
    if r.value.1 != 0 {
      SweepShrinks(crawl, candidates, idOnly, r.value.0);
    }
  }

  /**
   * The do/while driver: a pass on a fresh crawl, counting removals,
   * repeated while the count is not zero.  With `idOnly` set it runs the
   * corrected pattern visitors, unset the visitors as written (see `Env`).
   */
  method EliminateDeadCode(prog: seq<Node>, crawl: seq<Node> -> Scope, candidates: Option<set<NodeId>>, idOnly: bool)
    returns (r: Result<seq<Node>, Error>)
    requires CrawlOk(crawl)
    ensures r == Sweep(crawl, candidates, idOnly, prog)
  {
    var tree := prog;
    while true
      invariant Sweep(crawl, candidates, idOnly, tree) == Sweep(crawl, candidates, idOnly, prog)
      decreases NodesSize(tree)
    {
      var pass := Pass(Env(crawl(tree), candidates, idOnly), tree);
      if pass.Failure? {
        return Failure(pass.error);
      }
      var referencesRemovedInThisPass := pass.value.1;
      if referencesRemovedInThisPass == 0 {
        return Success(pass.value.0);
      }
      tree := pass.value.0;
    }
  }
}
