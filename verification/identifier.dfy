/**
 * The two questions the passes ask about an identifier: which identifier
 * names a function node, and whether an identifier is still referenced.
 */
module Identifier {
  import opened Wrappers
  import opened Ast
  import opened Bindings

  /**
   * Where a node sits, as far as naming a function goes: in a declarator's
   * `init` (with the declarator's current `id`), in an assignment's `right`
   * (with its `left`), or under a node of some other kind.
   */
  datatype Site =
    | InDeclarator(id: Pat)
    | InAssignment(left: Pat)
    | InOther(kind: NodeKind)

  /** The kind of the node a site is under. */
  function SiteKind(site: Site): NodeKind {
    match site
    case InDeclarator(_) => VariableDeclarator
    case InAssignment(_) => AssignmentExpression
    case InOther(k) => k
  }

  /**
   * The identifier that names a function node: the plain identifier its
   * declarator or assignment binds it to, otherwise (except for an arrow
   * function) its own name.
   */
  function FromFunction(site: Site, kind: FuncKind, id: Option<Ident>): (r: Option<Ident>)
    ensures site.InDeclarator? ==> (r.Some? <==> site.id.PId?) && (r.Some? ==> r.value == site.id.id)
    ensures site.InAssignment? ==> (r.Some? <==> site.left.PId?) && (r.Some? ==> r.value == site.left.id)
    ensures site.InOther? && kind == Arrow ==> r.None?
    ensures site.InOther? && kind != Arrow ==> r == id
  {
    match site
    case InDeclarator(target) => if target.PId? then Some(target.id) else None
    case InAssignment(target) => if target.PId? then Some(target.id) else None
    case InOther(_) => if kind == Arrow then None else id
  }

  /** The binding `x` resolves to in its scope, if any. */
  function BindingOf(s: Scope, x: Ident): (r: Option<Binding>)
    requires ScopeOk(s)
    ensures r.Some? <==> x.node in s.resolve
    ensures r.Some? ==> r.value == s.bindings[s.resolve[x.node]]
  {
    if x.node in s.resolve then Some(s.bindings[s.resolve[x.node]]) else None
  }

  /** The use lies inside the node that declares the binding. */
  predicate Inside(b: Binding, u: Use) {
    b.declNode in u.ancestors
  }

  /**
   * Whether `x` is still referenced: its binding is referenced, and a
   * function declaration's binding must be referenced from outside the
   * function itself (a constant violation counts as a use here).
   */
  function IsReferenced(s: Scope, x: Ident): (r: bool)
    requires ScopeOk(s)
    ensures BindingOf(s, x).None? ==> !r
    ensures BindingOf(s, x).Some? && !BindingOf(s, x).value.referenced ==> !r
    ensures BindingOf(s, x).Some? && BindingOf(s, x).value.referenced && BindingOf(s, x).value.kind != FunctionDeclaration ==> r
    ensures BindingOf(s, x).Some? && BindingOf(s, x).value.kind == FunctionDeclaration ==>
      (r <==> (BindingOf(s, x).value.referenced &&
                exists u :: u in BindingOf(s, x).value.violations + BindingOf(s, x).value.references && !Inside(BindingOf(s, x).value, u)))
  {
    match BindingOf(s, x)
    case None => false
    case Some(b) =>
      if !b.referenced then false
      else if b.kind == FunctionDeclaration then
        !(forall u :: u in b.violations + b.references ==> Inside(b, u))
      else true
  }

  /** A function declaration that is only used from inside itself (plain self-recursion) is not referenced. */
  lemma SelfRecursionUnreferenced(s: Scope, x: Ident)
    requires ScopeOk(s) && BindingOf(s, x).Some?
    requires BindingOf(s, x).value.kind == FunctionDeclaration
    requires forall u :: u in BindingOf(s, x).value.references + BindingOf(s, x).value.violations ==> Inside(BindingOf(s, x).value, u)
    ensures !IsReferenced(s, x)
  {
    var b := BindingOf(s, x).value;
    forall u | u in b.violations + b.references
      ensures Inside(b, u)
    {
      assert u in b.references + b.violations;
    }
  }

  /** The identifiers of `xs` that are still referenced, in order. */
  function ReferencedOnly(s: Scope, xs: seq<Ident>): (r: seq<Ident>)
    requires ScopeOk(s)
    ensures |r| <= |xs|
  {
    if xs == [] then []
    else (if IsReferenced(s, xs[0]) then [xs[0]] else []) + ReferencedOnly(s, xs[1..])
  }

  /** The referenced identifiers of `xs` are exactly its members that are referenced. */
  lemma {:induction false} ReferencedOnlyMembers(s: Scope, xs: seq<Ident>)
    requires ScopeOk(s)
    ensures forall x :: x in ReferencedOnly(s, xs) <==> x in xs && IsReferenced(s, x)
  {
    if xs != [] {
      ReferencedOnlyMembers(s, xs[1..]);
      assert forall x :: x in xs <==> x == xs[0] || x in xs[1..];
    }
  }

  /** Filtering a concatenation filters each part. */
  lemma {:induction false} ReferencedOnlyAppend(s: Scope, a: seq<Ident>, b: seq<Ident>)
    requires ScopeOk(s)
    ensures ReferencedOnly(s, a + b) == ReferencedOnly(s, a) + ReferencedOnly(s, b)
  {
    if a == [] {
      assert a + b == b;
    } else {
      assert (a + b)[0] == a[0];
      assert (a + b)[1..] == a[1..] + b;
      ReferencedOnlyAppend(s, a[1..], b);
      var h := if IsReferenced(s, a[0]) then [a[0]] else [];
      assert h + (ReferencedOnly(s, a[1..]) + ReferencedOnly(s, b)) == (h + ReferencedOnly(s, a[1..])) + ReferencedOnly(s, b);
    }
  }
}
