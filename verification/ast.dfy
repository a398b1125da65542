/**
 * The parts of a Babel syntax tree the dead-code pass looks at.
 *
 * Every node has a `NodeId`, its identity (Babel compares nodes and node
 * paths by identity).  `NodeKind` names the node types the pass tests
 * for; every other type is `OtherKind`.
 */
module Ast {
  import opened Wrappers


  type NodeId = nat

  datatype NodeKind =
    | Identifier
    | ObjectPattern
    | ObjectProperty
    | ArrayPattern
    | AssignmentPattern
    | RestElement
    | VariableDeclarator
    | VariableDeclaration
    | AssignmentExpression
    | FunctionDeclaration
    | FunctionExpression
    | ArrowFunctionExpression
    | ImportDeclaration
    | ForOfStatement
    | ForInStatement
    | OtherKind(name: string)

  /** An identifier occurrence: its node and its name. */
  datatype Ident = Ident(node: NodeId, name: string)

  /**
   * A destructuring binding target (section 14.3.3 of ECMA-262).  An
   * assignment pattern's default value is never looked at, so it is not
   * represented.
   */
  datatype Pat =
    | PId(id: Ident)
    | PObj(node: NodeId, props: seq<PropPat>)
    | PArr(node: NodeId, elems: seq<Elem>)
    | PAssign(node: NodeId, left: Pat)
    | PRest(node: NodeId, arg: Pat)
    | POther(node: NodeId, typeName: string)

  /** An array pattern's slot: a hole (`null`) or a pattern. */
  datatype Elem = Hole | Item(pat: Pat)

  /** An object pattern's member: an `ObjectProperty` (its key is not represented) or a `RestElement`. */
  datatype PropPat =
    | PProp(node: NodeId, value: Pat)
    | PRestProp(node: NodeId, arg: Pat)

  datatype FuncKind = Declaration | Expression | Arrow

  /**
   * The statements and expressions the passes visit.  Every node the
   * passes do not test for is `Other`, with its children in order; an
   * import specifier is represented by its local identifier.
   */
  datatype Node =
    | Import(node: NodeId, specs: seq<Ident>)
    | VarDecl(node: NodeId, decls: seq<Declarator>)
    | Func(node: NodeId, kind: FuncKind, id: Option<Ident>, params: seq<Pat>, body: seq<Node>)
    | Assign(node: NodeId, left: Pat, right: Option<Node>)
    | Other(node: NodeId, typeName: string, children: seq<Node>)

  datatype Declarator = Declarator(node: NodeId, id: Pat, init: Option<Node>)

  /** The node kind a function node has in Babel's terms. */
  function FuncNodeKind(k: FuncKind): NodeKind {
    match k
    case Declaration => FunctionDeclaration
    case Expression => FunctionExpression
    case Arrow => ArrowFunctionExpression
  }

  // Sizes count nodes; an array hole is not a node.

  function PatSize(p: Pat): (n: nat)
    ensures n >= 1
  {
    match p
    case PId(_) => 1
    case PObj(_, props) => 1 + PropsSize(props)
    case PArr(_, elems) => 1 + ElemsSize(elems)
    case PAssign(_, left) => 1 + PatSize(left)
    case PRest(_, arg) => 1 + PatSize(arg)
    case POther(_, _) => 1
  }

  function PropSize(q: PropPat): (n: nat)
    ensures n >= 2
  {
    match q
    case PProp(_, value) => 1 + PatSize(value)
    case PRestProp(_, arg) => 1 + PatSize(arg)
  }

  function PropsSize(props: seq<PropPat>): nat {
    if props == [] then 0 else PropSize(props[0]) + PropsSize(props[1..])
  }

  function ElemSize(e: Elem): nat {
    match e
    case Hole => 0
    case Item(p) => PatSize(p)
  }

  function ElemsSize(elems: seq<Elem>): nat {
    if elems == [] then 0
    else ElemSize(elems[0]) + ElemsSize(elems[1..])
  }

  function PatsSize(ps: seq<Pat>): nat {
    if ps == [] then 0 else PatSize(ps[0]) + PatsSize(ps[1..])
  }

  function NodeSize(n: Node): (r: nat)
    ensures r >= 1
  {
    match n
    case Import(_, specs) => 1 + |specs|
    case VarDecl(_, decls) => 1 + DeclsSize(decls)
    case Func(_, _, id, params, body) => 1 + (if id.Some? then 1 else 0) + PatsSize(params) + NodesSize(body)
    case Assign(_, left, right) => 1 + PatSize(left) + (if right.Some? then NodeSize(right.value) else 0)
    case Other(_, _, children) => 1 + NodesSize(children)
  }

  function NodesSize(ns: seq<Node>): nat {
    if ns == [] then 0 else NodeSize(ns[0]) + NodesSize(ns[1..])
  }

  function DeclSize(d: Declarator): (r: nat)
    ensures r >= 2
  {
    1 + PatSize(d.id) + if d.init.Some? then NodeSize(d.init.value) else 0
  }

  function DeclsSize(ds: seq<Declarator>): nat {
    if ds == [] then 0 else DeclSize(ds[0]) + DeclsSize(ds[1..])
  }
}
