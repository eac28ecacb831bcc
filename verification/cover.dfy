/**
 * Cover-grammar bookkeeping (src/parser.ts: isolateCoverGrammar,
 * inheritCoverGrammar, reinterpretExpressionAsPattern).
 *
 * An expression such as `[a, {b = 1}]` is parsed before the parser knows
 * whether it is an expression or the target of a destructuring assignment.
 * Three fields of the parser context track what the parse so far still
 * allows; when the parser decides it was a pattern it retags the nodes.
 */
module Cover {
  import opened Wrappers
  import opened Tokens
  import opened Nodes

  /** The three cover fields of the parser context. */
  datatype CoverState = CoverState(
    isBindingElement: bool,
    isAssignmentTarget: bool,
    firstCoverInitializedNameError: Option<RawToken>)

  /** The state both combinators start a sub-parse in. */
  const Fresh: CoverState := CoverState(true, true, None)

  /**
   * isolateCoverGrammar: the sub-parse ran from Fresh and ended in `after`. A
   * recorded cover-initialized-name error is raised; otherwise all three fields
   * are put back as they were before the sub-parse.
   */
  function Isolate(prior: CoverState, after: CoverState): (r: Result<CoverState, RawToken>)
    ensures r.Err? <==> after.firstCoverInitializedNameError.Some?
    ensures r.Err? ==> r.error == after.firstCoverInitializedNameError.value
    ensures r.Ok? ==> r.value == prior
  {
    if after.firstCoverInitializedNameError.Some? then Err(after.firstCoverInitializedNameError.value)
    else Ok(prior)
  }

  /**
   * inheritCoverGrammar: the sub-parse ran from Fresh and ended in `after`; each
   * flag survives only if it held before and after, and the earlier of the two
   * recorded errors is kept.
   */
  function Inherit(prior: CoverState, after: CoverState): (c: CoverState)
    ensures c.isBindingElement == (prior.isBindingElement && after.isBindingElement)
    ensures c.isAssignmentTarget == (prior.isAssignmentTarget && after.isAssignmentTarget)
    ensures prior.firstCoverInitializedNameError.Some? ==> c.firstCoverInitializedNameError == prior.firstCoverInitializedNameError
    ensures prior.firstCoverInitializedNameError.None? ==> c.firstCoverInitializedNameError == after.firstCoverInitializedNameError
  {
    CoverState(
      after.isBindingElement && prior.isBindingElement,
      after.isAssignmentTarget && prior.isAssignmentTarget,
      if prior.firstCoverInitializedNameError.Some? then prior.firstCoverInitializedNameError
      else after.firstCoverInitializedNameError)
  }

  /** A sub-parse that leaves the fresh state untouched changes nothing when inherited. */
  lemma InheritFreshIsNoOp(prior: CoverState)
    ensures Inherit(prior, Fresh) == prior
  {
  }

  /** Inheriting into the fresh state yields the sub-parse's own state. */
  lemma InheritIntoFresh(after: CoverState)
    ensures Inherit(Fresh, after) == after
  {
  }

  /**
   * Inheriting two sub-parses one after the other is the same as inheriting
   * their combination: the combinator is associative, so how nested
   * sub-expressions are grouped does not matter to the outcome.
   */
  lemma InheritAssociative(p: CoverState, a: CoverState, b: CoverState)
    ensures Inherit(Inherit(p, a), b) == Inherit(p, Inherit(a, b))
  {
  }

  /** Inheriting is idempotent: a sub-parse repeated has the effect of one. */
  lemma InheritIdempotent(p: CoverState, a: CoverState)
    ensures Inherit(Inherit(p, a), a) == Inherit(p, a)
  {
  }

  /**
   * An isolated sub-parse fails exactly when some inherited sub-parse inside it
   * recorded an error, and the error raised is the first one recorded.
   */
  lemma IsolateSeesInheritedError(prior: CoverState, a: CoverState, b: CoverState)
    ensures Isolate(prior, Inherit(a, b)).Err? <==>
              a.firstCoverInitializedNameError.Some? || b.firstCoverInitializedNameError.Some?
    ensures a.firstCoverInitializedNameError.Some? ==>
              Isolate(prior, Inherit(a, b)) == Err(a.firstCoverInitializedNameError.value)
  {
  }

  /**
   * The cover fields through parseBinaryExpression. The first operand's
   * sub-parse (ending in `first`) is inherited. If an operator follows, the
   * expression is from then on neither an assignment target nor a binding
   * element, and every right operand is parsed isolated (its sub-parse ending
   * in the corresponding entry of `operands`), so the first right operand that
   * recorded a cover-initialized-name error raises it.
   */
  method BinaryExpressionCover(prior: CoverState, first: CoverState, operands: seq<CoverState>)
    returns (r: Result<CoverState, RawToken>)
    ensures |operands| == 0 ==> r == Ok(Inherit(prior, first))
    ensures r.Err? <==> exists i :: 0 <= i < |operands| && operands[i].firstCoverInitializedNameError.Some?
    ensures r.Err? ==>
              exists i :: 0 <= i < |operands| && operands[i].firstCoverInitializedNameError == Some(r.error)
                          && forall j :: 0 <= j < i ==> operands[j].firstCoverInitializedNameError.None?
    ensures r.Ok? && |operands| > 0 ==>
              && !r.value.isBindingElement && !r.value.isAssignmentTarget
              && r.value.firstCoverInitializedNameError == Inherit(prior, first).firstCoverInitializedNameError
  {
    var c := Inherit(prior, first);
    if |operands| == 0 {
      return Ok(c);
    }
    c := c.(isBindingElement := false, isAssignmentTarget := false);
    var i := 0;
    while i < |operands|
      invariant 0 <= i <= |operands|
      invariant forall j :: 0 <= j < i ==> operands[j].firstCoverInitializedNameError.None?
      invariant !c.isBindingElement && !c.isAssignmentTarget
      invariant c.firstCoverInitializedNameError == Inherit(prior, first).firstCoverInitializedNameError
    {
      var isolated := Isolate(c, operands[i]);
      if isolated.Err? {
        return Err(isolated.error);
      }
      c := isolated.value;
      i := i + 1;
    }
    return Ok(c);
  }

  // ---------------------------------------------------------------------------
  // Expression -> pattern reinterpretation. The source retags nodes in place;
  // here the rewrite returns the retagged tree.

  /** The node kinds the rewrite turns into patterns. */
  predicate IsCoverExpression(n: Node) {
    n.SpreadElement? || n.ArrayExpression? || n.ObjectExpression? || n.AssignmentExpression?
  }

  /**
   * reinterpretExpressionAsPattern. Spread, array, object and assignment
   * expressions become rest, array, object and assignment patterns, recursing
   * into the positions that are themselves targets: the spread argument, the
   * non-hole array elements, the property values and spread properties, and the
   * assignment's left side (the operator is dropped). Every other node,
   * including patterns already built, is left as it is.
   */
  function Reinterpret(e: Node): (p: Node)
    ensures !IsCoverExpression(e) ==> p == e
    ensures e.SpreadElement? ==> p.RestElement?
    ensures e.ArrayExpression? ==> p.ArrayPattern? && |p.elements| == |e.elements|
    ensures e.ObjectExpression? ==> p.ObjectPattern? && |p.properties| == |e.properties|
    ensures e.AssignmentExpression? ==> p == AssignmentPattern(Reinterpret(e.left), e.right)
    ensures !IsCoverExpression(p)
    decreases e, 0
  {
    if e.SpreadElement? then RestElement(Reinterpret(e.argument))
    else if e.ArrayExpression? then
      ArrayPattern(seq(|e.elements|, i requires 0 <= i < |e.elements| =>
        if e.elements[i].Some? then Some(Reinterpret(e.elements[i].value)) else None))
    else if e.ObjectExpression? then
      ObjectPattern(seq(|e.properties|, i requires 0 <= i < |e.properties| => ReinterpretProperty(e.properties[i])))
    else if e.AssignmentExpression? then AssignmentPattern(Reinterpret(e.left), e.right)
    else e
  }

  /** One object property: a spread is reinterpreted itself, a property through its value. */
  function ReinterpretProperty(prop: Node): (q: Node)
    ensures prop.SpreadElement? ==> q == Reinterpret(prop)
    ensures prop.Property? ==> q == prop.(propertyValue := Reinterpret(prop.propertyValue))
    ensures !prop.SpreadElement? && !prop.Property? ==> q == prop
    decreases prop, 1
  {
    if prop.SpreadElement? then Reinterpret(prop)
    else if prop.Property? then prop.(propertyValue := Reinterpret(prop.propertyValue))
    else prop
  }

  /**
   * The pattern view: every target position holds a pattern (or a node the
   * rewrite tolerates), never a spread, array, object or assignment expression.
   */
  predicate Clean(n: Node)
    decreases n, 0
  {
    if n.RestElement? then Clean(n.argument)
    else if n.ArrayPattern? then
      forall i :: 0 <= i < |n.elements| && n.elements[i].Some? ==> Clean(n.elements[i].value)
    else if n.ObjectPattern? then forall i :: 0 <= i < |n.properties| ==> CleanProperty(n.properties[i])
    else if n.AssignmentPattern? then Clean(n.left)
    else !IsCoverExpression(n)
  }

  predicate CleanProperty(prop: Node)
    decreases prop, 1
  {
    if prop.Property? then Clean(prop.propertyValue) else Clean(prop)
  }

  /**
   * What the rewrite needs of its input: the patterns it meets at target
   * positions (which it leaves untouched) are already clean.
   */
  predicate ReadyForPattern(e: Node)
    decreases e, 0
  {
    if e.SpreadElement? then ReadyForPattern(e.argument)
    else if e.ArrayExpression? then
      forall i :: 0 <= i < |e.elements| && e.elements[i].Some? ==> ReadyForPattern(e.elements[i].value)
    else if e.ObjectExpression? then forall i :: 0 <= i < |e.properties| ==> ReadyProperty(e.properties[i])
    else if e.AssignmentExpression? then ReadyForPattern(e.left)
    else Clean(e)
  }

  predicate ReadyProperty(prop: Node)
    decreases prop, 1
  {
    if prop.SpreadElement? then ReadyForPattern(prop)
    else if prop.Property? then ReadyForPattern(prop.propertyValue)
    else Clean(prop)
  }

  /** The rewrite produces a clean pattern exactly when its input is ready for one. */
  lemma {:induction false} ReinterpretCleans(e: Node)
    ensures Clean(Reinterpret(e)) <==> ReadyForPattern(e)
    decreases e, 2
  {
    if e.SpreadElement? {
      ReinterpretCleans(e.argument);
    } else if e.ArrayExpression? {
      ElementsClean(e);
    } else if e.ObjectExpression? {
      PropertiesClean(e);
    } else if e.AssignmentExpression? {
      ReinterpretCleans(e.left);
    }
  }

  lemma {:induction false} ElementsClean(e: Node)
    requires e.ArrayExpression?
    ensures Clean(Reinterpret(e)) <==> ReadyForPattern(e)
    decreases e, 1
  {
    var els := e.elements;
    var ps := Reinterpret(e).elements;
    forall i | 0 <= i < |els|
      ensures ps[i].Some? <==> els[i].Some?
      ensures els[i].Some? ==> (Clean(ps[i].value) <==> ReadyForPattern(els[i].value))
    {
      if els[i].Some? {
        ReinterpretCleans(els[i].value);
      }
    }
  }

  lemma {:induction false} PropertiesClean(e: Node)
    requires e.ObjectExpression?
    ensures Clean(Reinterpret(e)) <==> ReadyForPattern(e)
    decreases e, 1
  {
    var props := e.properties;
    var qs := Reinterpret(e).properties;
    forall i | 0 <= i < |props|
      ensures CleanProperty(qs[i]) <==> ReadyProperty(props[i])
    {
      assert qs[i] == ReinterpretProperty(props[i]);
      ReinterpretPropertyCleans(props[i]);
    }
  }

  lemma {:induction false} ReinterpretPropertyCleans(prop: Node)
    ensures CleanProperty(ReinterpretProperty(prop)) <==> ReadyProperty(prop)
    decreases prop, 3
  {
    if prop.SpreadElement? {
      ReinterpretCleans(prop.argument);
    } else if prop.Property? {
      ReinterpretCleans(prop.propertyValue);
    }
  }

  /** A clean pattern is left unchanged by the rewrite. */
  lemma CleanIsFixedPoint(n: Node)
    requires Clean(n)
    ensures Reinterpret(n) == n
  {
    assert !IsCoverExpression(n);
  }

  /** Rewriting twice is rewriting once. */
  lemma ReinterpretIdempotent(e: Node)
    ensures Reinterpret(Reinterpret(e)) == Reinterpret(e)
  {
  }

  /**
   * The expression view of a tree: patterns read back as the expressions they
   * were covered by, and assignment operators are forgotten. Two trees with the
   * same shape differ only in the tags the rewrite changes.
   */
  function Shape(n: Node): Node
    decreases n, 0
  {
    if n.RestElement? || n.SpreadElement? then SpreadElement(Shape(n.argument))
    else if n.ArrayPattern? || n.ArrayExpression? then
      ArrayExpression(seq(|n.elements|, i requires 0 <= i < |n.elements| => ShapeElement(n.elements[i])))
    else if n.ObjectPattern? || n.ObjectExpression? then
      ObjectExpression(seq(|n.properties|, i requires 0 <= i < |n.properties| => ShapeProperty(n.properties[i])))
    else if n.AssignmentPattern? then AssignmentExpression("=", Shape(n.left), n.right)
    else if n.AssignmentExpression? then AssignmentExpression("=", Shape(n.left), n.right)
    else n
  }

  function ShapeElement(el: Option<Node>): Option<Node>
    decreases el, 1
  {
    if el.Some? then Some(Shape(el.value)) else None
  }

  function ShapeProperty(prop: Node): Node
    decreases prop, 1
  {
    if prop.Property? then prop.(propertyValue := Shape(prop.propertyValue)) else Shape(prop)
  }

  /** The rewrite only retags: the tree keeps its shape, children and order. */
  lemma {:induction false} ReinterpretOnlyRetags(e: Node)
    ensures Shape(Reinterpret(e)) == Shape(e)
    decreases e, 2
  {
    if e.SpreadElement? {
      ReinterpretOnlyRetags(e.argument);
    } else if e.ArrayExpression? {
      ElementsRetagged(e);
    } else if e.ObjectExpression? {
      PropertiesRetagged(e);
    } else if e.AssignmentExpression? {
      ReinterpretOnlyRetags(e.left);
    }
  }

  lemma {:induction false} ElementsRetagged(e: Node)
    requires e.ArrayExpression?
    ensures Shape(Reinterpret(e)) == Shape(e)
    decreases e, 1
  {
    var els := e.elements;
    var ps := Reinterpret(e).elements;
    forall i | 0 <= i < |els|
      ensures ShapeElement(ps[i]) == ShapeElement(els[i])
    {
      if els[i].Some? {
        ReinterpretOnlyRetags(els[i].value);
      }
    }
  }

  lemma {:induction false} PropertiesRetagged(e: Node)
    requires e.ObjectExpression?
    ensures Shape(Reinterpret(e)) == Shape(e)
    decreases e, 1
  {
    var props := e.properties;
    var qs := Reinterpret(e).properties;
    forall i | 0 <= i < |props|
      ensures ShapeProperty(qs[i]) == ShapeProperty(props[i])
    {
      PropertyRetagged(props[i]);
    }
  }

  lemma {:induction false} PropertyRetagged(prop: Node)
    ensures ShapeProperty(ReinterpretProperty(prop)) == ShapeProperty(prop)
    decreases prop, 3
  {
    if prop.SpreadElement? {
      ReinterpretOnlyRetags(prop.argument);
    } else if prop.Property? {
      ReinterpretOnlyRetags(prop.propertyValue);
    }
  }
}
