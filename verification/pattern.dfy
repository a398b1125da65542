/**
 * Destructuring patterns: collecting the identifiers a pattern binds, and
 * deciding how an emptied object or array pattern is cut out of its
 * parent.  The dead-code pass carries its own copies of both functions
 * (`findVariablesInPattern` and `removePattern`); they are the same code
 * and are modelled once, here.
 */
module Pattern {
  import opened Wrappers
  import opened Ast

  /** The error the passes throw: a node of a kind they do not handle. */
  datatype Error = Unexpected(kind: NodeKind)

  /**
   * The identifiers a pattern binds, in source order: through object
   * members, property values, array slots (skipping holes), an assignment
   * pattern's target and a rest element's argument.  Any other node kind
   * is an error, and the only one: the collection fails only on a node of
   * a kind it does not handle.  The lemmas below say exactly when it fails
   * and what it lists.
   */
  function FindVariables(p: Pat): (r: Result<seq<Ident>, Error>)
    ensures r.Failure? ==> r.error.kind.OtherKind?
  {
    match p
    case PId(x) => Success([x])
    case PObj(_, props) => FindInProps(props)
    case PArr(_, elems) => FindInElems(elems)
    case PAssign(_, left) => FindVariables(left)
    case PRest(_, arg) => FindVariables(arg)
    case POther(_, t) => Failure(Unexpected(OtherKind(t)))
  }

  function FindInProp(q: PropPat): (r: Result<seq<Ident>, Error>)
    ensures r.Failure? ==> r.error.kind.OtherKind?
  {
    match q
    case PProp(_, value) => FindVariables(value)
    case PRestProp(_, arg) => FindVariables(arg)
  }

  function FindInProps(props: seq<PropPat>): (r: Result<seq<Ident>, Error>)
    ensures r.Failure? ==> r.error.kind.OtherKind?
  {
    if props == [] then Success([])
    else
      var head := FindInProp(props[0]);
      if head.Failure? then head
      else
        var tail := FindInProps(props[1..]);
        if tail.Failure? then tail else Success(head.value + tail.value)
  }

  function FindInElem(e: Elem): (r: Result<seq<Ident>, Error>)
    ensures r.Failure? ==> r.error.kind.OtherKind?
  {
    match e
    case Hole => Success([])
    case Item(p) => FindVariables(p)
  }

  function FindInElems(elems: seq<Elem>): (r: Result<seq<Ident>, Error>)
    ensures r.Failure? ==> r.error.kind.OtherKind?
  {
    if elems == [] then Success([])
    else
      var head := FindInElem(elems[0]);
      if head.Failure? then head
      else
        var tail := FindInElems(elems[1..]);
        if tail.Failure? then tail else Success(head.value + tail.value)
  }

  // An independent description of the patterns `FindVariables` accepts
  // and of the identifiers a pattern binds.

  /** Every node of the pattern is of a kind the collection handles. */
  predicate Supported(p: Pat) {
    match p
    case PId(_) => true
    case PObj(_, props) => forall i :: 0 <= i < |props| ==> PropSupported(props[i])
    case PArr(_, elems) => forall i :: 0 <= i < |elems| ==> ElemSupported(elems[i])
    case PAssign(_, left) => Supported(left)
    case PRest(_, arg) => Supported(arg)
    case POther(_, _) => false
  }

  predicate PropSupported(q: PropPat) {
    match q
    case PProp(_, value) => Supported(value)
    case PRestProp(_, arg) => Supported(arg)
  }

  predicate ElemSupported(e: Elem) {
    e.Item? ==> Supported(e.pat)
  }

  /** `x` is one of the pattern's identifier leaves. */
  predicate Binds(p: Pat, x: Ident) {
    match p
    case PId(y) => x == y
    case PObj(_, props) => exists i :: 0 <= i < |props| && PropBinds(props[i], x)
    case PArr(_, elems) => exists i :: 0 <= i < |elems| && ElemBinds(elems[i], x)
    case PAssign(_, left) => Binds(left, x)
    case PRest(_, arg) => Binds(arg, x)
    case POther(_, _) => false
  }

  predicate PropBinds(q: PropPat, x: Ident) {
    match q
    case PProp(_, value) => Binds(value, x)
    case PRestProp(_, arg) => Binds(arg, x)
  }

  predicate ElemBinds(e: Elem, x: Ident) {
    e.Item? && Binds(e.pat, x)
  }

  /** The collection succeeds exactly on supported patterns, and then lists exactly the identifiers the pattern binds. */
  lemma {:induction false} FindVariablesSound(p: Pat)
    ensures FindVariables(p).Success? <==> Supported(p)
    ensures FindVariables(p).Success? ==> forall x :: x in FindVariables(p).value <==> Binds(p, x)
  {
    match p
    case PId(_) =>
    case PObj(_, props) => FindInPropsSound(props);
    case PArr(_, elems) => FindInElemsSound(elems);
    case PAssign(_, left) => FindVariablesSound(left);
    case PRest(_, arg) => FindVariablesSound(arg);
    case POther(_, _) =>
  }

  lemma {:induction false} FindInPropSound(q: PropPat)
    ensures FindInProp(q).Success? <==> PropSupported(q)
    ensures FindInProp(q).Success? ==> forall x :: x in FindInProp(q).value <==> PropBinds(q, x)
  {
    match q
    case PProp(_, value) => FindVariablesSound(value);
    case PRestProp(_, arg) => FindVariablesSound(arg);
  }

  lemma {:induction false} FindInPropsSound(props: seq<PropPat>)
    ensures FindInProps(props).Success? <==> forall i :: 0 <= i < |props| ==> PropSupported(props[i])
    ensures FindInProps(props).Success? ==>
      forall x :: x in FindInProps(props).value <==> exists i :: 0 <= i < |props| && PropBinds(props[i], x)
  {
    if props != [] {
      FindInPropSound(props[0]);
      FindInPropsSound(props[1..]);
      assert forall i :: 1 <= i < |props| ==> props[i] == props[1..][i - 1];
      if FindInProps(props).Success? {
        forall x | exists i :: 0 <= i < |props| && PropBinds(props[i], x)
          ensures x in FindInProps(props).value
        {
          var i :| 0 <= i < |props| && PropBinds(props[i], x);
          if i > 0 {
            assert PropBinds(props[1..][i - 1], x);
          }
        }
      }
    }
  }

  lemma {:induction false} FindInElemSound(e: Elem)
    ensures FindInElem(e).Success? <==> ElemSupported(e)
    ensures FindInElem(e).Success? ==> forall x :: x in FindInElem(e).value <==> ElemBinds(e, x)
  {
    if e.Item? {
      FindVariablesSound(e.pat);
    }
  }

  lemma {:induction false} FindInElemsSound(elems: seq<Elem>)
    ensures FindInElems(elems).Success? <==> forall i :: 0 <= i < |elems| ==> ElemSupported(elems[i])
    ensures FindInElems(elems).Success? ==>
      forall x :: x in FindInElems(elems).value <==> exists i :: 0 <= i < |elems| && ElemBinds(elems[i], x)
  {
    if elems != [] {
      FindInElemSound(elems[0]);
      FindInElemsSound(elems[1..]);
      assert forall i :: 1 <= i < |elems| ==> elems[i] == elems[1..][i - 1];
      if FindInElems(elems).Success? {
        forall x | exists i :: 0 <= i < |elems| && ElemBinds(elems[i], x)
          ensures x in FindInElems(elems).value
        {
          var i :| 0 <= i < |elems| && ElemBinds(elems[i], x);
          if i > 0 {
            assert ElemBinds(elems[1..][i - 1], x);
          }
        }
      }
    }
  }

  /** The identifiers of a list of members are those of a prefix followed by those of the rest: source order. */
  lemma {:induction false} FindInPropsAppend(a: seq<PropPat>, b: seq<PropPat>)
    ensures FindInProps(a + b) ==
      if FindInProps(a).Failure? then FindInProps(a)
      else if FindInProps(b).Failure? then FindInProps(b)
      else Success(FindInProps(a).value + FindInProps(b).value)
  {
    if a == [] {
      assert a + b == b;
      if FindInProps(b).Success? {
        assert [] + FindInProps(b).value == FindInProps(b).value;
      }
    } else {
      assert (a + b)[0] == a[0];
      assert (a + b)[1..] == a[1..] + b;
      FindInPropsAppend(a[1..], b);
      var head := FindInProp(a[0]);
      var rest := FindInProps(a[1..]);
      var other := FindInProps(b);
      if head.Success? && rest.Success? && other.Success? {
        assert head.value + (rest.value + other.value) == (head.value + rest.value) + other.value;
      }
    }
  }

  /** The same for array slots. */
  lemma {:induction false} FindInElemsAppend(a: seq<Elem>, b: seq<Elem>)
    ensures FindInElems(a + b) ==
      if FindInElems(a).Failure? then FindInElems(a)
      else if FindInElems(b).Failure? then FindInElems(b)
      else Success(FindInElems(a).value + FindInElems(b).value)
  {
    if a == [] {
      assert a + b == b;
      if FindInElems(b).Success? {
        assert [] + FindInElems(b).value == FindInElems(b).value;
      }
    } else {
      assert (a + b)[0] == a[0];
      assert (a + b)[1..] == a[1..] + b;
      FindInElemsAppend(a[1..], b);
      var head := FindInElem(a[0]);
      var rest := FindInElems(a[1..]);
      var other := FindInElems(b);
      if head.Success? && rest.Success? && other.Success? {
        assert head.value + (rest.value + other.value) == (head.value + rest.value) + other.value;
      }
    }
  }

  /** How an emptied pattern is cut out, relative to the pattern itself. */
  datatype Excision =
    | RemoveParent       // the declarator, property or rest element holding it goes
    | NullSlot           // its own array slot becomes a hole
    | RemoveGrandparent  // under a default value: the property holding the assignment pattern goes
    | NullParentSlot     // under a default value: the assignment pattern's array slot becomes a hole

  /**
   * How an emptied pattern whose parent has kind `parent` and grandparent
   * kind `grand` is removed; any other shape is an error naming the node
   * that was not expected.
   */
  function Remove(parent: NodeKind, grand: NodeKind): (r: Result<Excision, Error>)
    ensures r.Success? <==>
      parent in {VariableDeclarator, ArrayPattern, ObjectProperty, RestElement} ||
      (parent == AssignmentPattern && grand in {ObjectProperty, ArrayPattern})
    ensures r.Failure? ==> r.error == Unexpected(if parent == AssignmentPattern then grand else parent)
    ensures r.Success? ==> (r.value == NullSlot <==> parent == ArrayPattern)
    ensures r.Success? ==> (r.value == NullParentSlot <==> parent == AssignmentPattern && grand == ArrayPattern)
    ensures r.Success? ==> (r.value == RemoveGrandparent <==> parent == AssignmentPattern && grand == ObjectProperty)
  {
    if parent == VariableDeclarator then Success(RemoveParent)
    else if parent == ArrayPattern then Success(NullSlot)
    else if parent == ObjectProperty then Success(RemoveParent)
    else if parent == RestElement then Success(RemoveParent)
    else if parent == AssignmentPattern then
      if grand == ObjectProperty then Success(RemoveGrandparent)
      else if grand == ArrayPattern then Success(NullParentSlot)
      else Failure(Unexpected(grand))
    else Failure(Unexpected(parent))
  }
}
