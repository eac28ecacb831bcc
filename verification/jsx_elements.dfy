/**
 * JSX children and element nesting (src/jsx-parser.ts: parseJSXChildren,
 * parseComplexJSXElement, parseJSXElement).
 *
 * Nesting is driven by an explicit stack of open elements. Its input is a
 * sequence of rounds: the children parseJSXChildren collects, then the
 * boundary tag parseJSXBoundaryElement reads. The loop ends at the end of
 * input, which here is the end of the rounds.
 */
module JsxElements {
  import opened Wrappers
  import opened JsxNames
  import Nodes
  import JsxLexer

  datatype Attribute =
    | NameValueAttribute(attributeName: ElementName, value: Option<Nodes.Node>)
    | SpreadAttribute(argument: Nodes.Node)

  datatype Opening =
    | OpeningElement(name: ElementName, selfClosing: bool, attributes: seq<Attribute>)
    | OpeningFragment

  datatype Closing = ClosingElement(closingName: ElementName) | ClosingFragment

  datatype Child =
    | JSXText(value: string, raw: string)
    | JSXExpressionContainer(expression: Nodes.Node)
    | JSXElement(opening: Opening, children: seq<Child>, closing: Option<Closing>)

  // ---------------------------------------------------------------------------
  // parseJSXChildren.

  /**
   * The children from index i: a text child for every non-empty text run, and
   * an expression container wherever a `{` follows. The container parser is a
   * parameter: given the index of the `{` it returns the expression and the
   * index after the `}`.
   */
  function ParseJSXChildren(src: string, i: nat, container: nat -> (Nodes.Node, nat)): (r: (seq<Child>, nat))
    requires i <= |src|
    requires forall k :: container(k).1 > k
    ensures i <= r.1
    ensures forall k :: 0 <= k < |r.0| ==> r.0[k].JSXText? || r.0[k].JSXExpressionContainer?
    ensures forall k :: 0 <= k < |r.0| - 1 ==> !(r.0[k].JSXText? && r.0[k + 1].JSXText?)
    decreases |src| - i
  {
    if i == |src| then ([], i)
    else
      var t := JsxLexer.NextJSXText(src, i, 0, 0);
      var text := if i < t.next then [JSXText(t.text, src[i..t.next])] else [];
      if t.next < |src| && src[t.next] == '{' then
        var inner := container(t.next);
        if inner.1 < |src| then
          var rest := ParseJSXChildren(src, inner.1, container);
          (text + [JSXExpressionContainer(inner.0)] + rest.0, rest.1)
        else (text + [JSXExpressionContainer(inner.0)], inner.1)
      else (text, t.next)
  }

  /** A text child is a non-empty run of source without `{` or `<`, its value the run with `\r\n` collapsed. */
  predicate GoodText(c: Child)
    requires c.JSXText?
  {
    |c.raw| > 0 && '{' !in c.raw && '<' !in c.raw && c.value == JsxLexer.CollapseCRLF(c.raw)
  }

  /** `raw` occurs in the source at s. */
  predicate SliceAt(src: string, s: nat, raw: string) {
    s + |raw| <= |src| && src[s..s + |raw|] == raw
  }

  /** A text run may end at e: at the end of the source or before a `{` or `<`. */
  predicate TextStop(src: string, e: nat) {
    e == |src| || (e < |src| && (src[e] == '{' || src[e] == '<'))
  }

  /**
   * The children loop never produces an empty text child, and it stops only
   * at the end of input or before a `<`: a `{` always starts another container.
   * Each text child's raw text is the source from some index at or after i up
   * to a stop (TextFromSource).
   */
  lemma {:induction false} ChildrenSpec(src: string, i: nat, container: nat -> (Nodes.Node, nat))
    requires i <= |src|
    requires forall k :: container(k).1 > k
    ensures var r := ParseJSXChildren(src, i, container);
            && (forall k :: 0 <= k < |r.0| && r.0[k].JSXText? ==> GoodText(r.0[k]))
            && (r.1 >= |src| || src[r.1] == '<')
    ensures AllFromSource(src, i, ParseJSXChildren(src, i, container).0)
    decreases |src| - i
  {
    TextFromSource(src, i, container);
    if i < |src| {
      var t := JsxLexer.NextJSXText(src, i, 0, 0);
      if i < t.next {
        var raw := src[i..t.next];
        forall m | 0 <= m < |raw|
          ensures raw[m] != '{' && raw[m] != '<'
        {
          assert raw[m] == src[i + m];
        }
        assert GoodText(JSXText(t.text, raw));
      }
      if t.next < |src| && src[t.next] == '{' {
        var after := container(t.next).1;
        if after < |src| {
          ChildrenSpec(src, after, container);
        }
      }
    }
  }

  /** A text child is the source from some index at or after lo up to a stop. */
  predicate FromSource(src: string, lo: nat, c: Child) {
    c.JSXText? ==> exists s :: lo <= s <= |src| && SliceAt(src, s, c.raw) && TextStop(src, s + |c.raw|)
  }

  predicate AllFromSource(src: string, lo: nat, cs: seq<Child>) {
    forall k :: 0 <= k < |cs| ==> FromSource(src, lo, cs[k])
  }

  /** Each text child is a run of the source at or after i that ends at a stop. */
  lemma {:induction false} TextFromSource(src: string, i: nat, container: nat -> (Nodes.Node, nat))
    requires i <= |src|
    requires forall k :: container(k).1 > k
    ensures AllFromSource(src, i, ParseJSXChildren(src, i, container).0)
    decreases |src| - i
  {
    if i < |src| {
      var t := JsxLexer.NextJSXText(src, i, 0, 0);
      var text := if i < t.next then [JSXText(t.text, src[i..t.next])] else [];
      forall k | 0 <= k < |text|
        ensures FromSource(src, i, text[k])
      {
        assert SliceAt(src, i, text[k].raw) && TextStop(src, i + |text[k].raw|);
      }
      if t.next < |src| && src[t.next] == '{' {
        var after := container(t.next).1;
        if after < |src| {
          TextFromSource(src, after, container);
          var rest := ParseJSXChildren(src, after, container);
          assert AllFromSource(src, after, rest.0);
          var r := ParseJSXChildren(src, i, container);
          assert r.0 == text + [JSXExpressionContainer(container(t.next).0)] + rest.0;
          forall k | 0 <= k < |r.0|
            ensures FromSource(src, i, r.0[k])
          {
            if k > |text| {
              var k' := k - |text| - 1;
              assert r.0[k] == rest.0[k'] && FromSource(src, after, rest.0[k']);
            }
          }
        }
      }
    }
  }

  // ---------------------------------------------------------------------------
  // parseComplexJSXElement.

  /** A boundary tag: an opening element (never a fragment), a closing element, or `</>`. */
  datatype Boundary =
    | OpenTag(name: ElementName, selfClosing: bool, attributes: seq<Attribute>)
    | CloseTag(closeName: ElementName)
    | CloseFragmentTag

  datatype Round = Round(children: seq<Child>, boundary: Boundary)

  /** An element under construction. */
  datatype Meta = Meta(opening: Opening, children: seq<Child>, closing: Option<Closing>)

  /** Tolerated errors, recorded in order. */
  datatype JsxError =
    | ClosingTagMismatch(open: string)           // `</b>` closing `<a>`
    | ClosingFragmentMismatch                    // `</>` closing `<a>`
    | FragmentClosedByTag(close: string)         // `</a>` closing `<>`

  datatype Nest = Nest(el: Meta, stack: seq<Meta>, errors: seq<JsxError>)

  /** The loop goes on, stops at the outermost closing tag, or dies with a TypeError. */
  datatype Outcome = Open(n: Nest) | Closed(n: Nest) | Crashed

  /**
   * How a closing tag on a fragment is handled: as written the opening's
   * missing name is read and the parser dies; corrected it is a tolerated
   * mismatch. As written the end of input with the root still open returns
   * whatever element is current; corrected it is an error.
   */
  datatype Mode = AsWritten | Corrected

  function Complete(el: Meta): Child {
    JSXElement(el.opening, el.children, el.closing)
  }

  /** After a closing tag: back to the parent with the finished element as its last child, or stop at the root. */
  function CloseCurrent(n: Nest): (o: Outcome)
    ensures |n.stack| == 0 <==> o.Closed?
    ensures |n.stack| == 0 ==> o == Closed(n)
    ensures |n.stack| > 0 ==> o.Open? && |o.n.stack| == |n.stack| - 1 && o.n.errors == n.errors
    ensures |n.stack| > 0 ==> o.n.stack == n.stack[..|n.stack| - 1]
    ensures |n.stack| > 0 ==> o.n.el.opening == n.stack[|n.stack| - 1].opening
    ensures |n.stack| > 0 ==> o.n.el.children == n.stack[|n.stack| - 1].children + [Complete(n.el)]
  {
    if |n.stack| > 0 then
      var parent := n.stack[|n.stack| - 1];
      Open(Nest(parent.(children := parent.children + [Complete(n.el)]), n.stack[..|n.stack| - 1], n.errors))
    else Closed(n)
  }

  /** One pass of the loop body; StepShape says what it does to the nesting. */
  function Step(mode: Mode, n: Nest, r: Round): Outcome {
    var el := n.el.(children := n.el.children + r.children);
    match r.boundary
    case OpenTag(name, selfClosing, attributes) =>
      var opening := OpeningElement(name, selfClosing, attributes);
      if selfClosing then Open(n.(el := el.(children := el.children + [JSXElement(opening, [], None)])))
      else Open(Nest(Meta(opening, [], None), n.stack + [el], n.errors))
    case CloseTag(name) =>
      var closed := el.(closing := Some(ClosingElement(name)));
      if el.opening.OpeningFragment? then
        if mode == AsWritten then Crashed
        else CloseCurrent(Nest(closed, n.stack, n.errors + [FragmentClosedByTag(QualifiedName(name))]))
      else
        var open := QualifiedName(el.opening.name);
        var errors := if open != QualifiedName(name) then n.errors + [ClosingTagMismatch(open)] else n.errors;
        CloseCurrent(Nest(closed, n.stack, errors))
    case CloseFragmentTag =>
      var closed := el.(closing := Some(ClosingFragment));
      if el.opening.OpeningFragment? then Closed(n.(el := closed))
      else Open(Nest(closed, n.stack, n.errors + [ClosingFragmentMismatch]))
  }

  /**
   * One pass dies only on a closing element tag for a fragment as written;
   * otherwise the errors only grow, by at most one, an opening tag deepens the
   * stack by one unless it closes itself, a closing element tag pops one level
   * or stops at the root, and a stop always has a closing tag.
   */
  lemma StepShape(mode: Mode, n: Nest, r: Round)
    ensures var o := Step(mode, n, r);
            && (o.Crashed? <==> mode == AsWritten && r.boundary.CloseTag? && n.el.opening.OpeningFragment?)
            && (!o.Crashed? ==> n.errors <= o.n.errors && |o.n.errors| <= |n.errors| + 1)
            && (r.boundary.OpenTag? ==> o.Open? && |o.n.stack| == |n.stack| + (if r.boundary.selfClosing then 0 else 1))
            && (r.boundary.CloseTag? && o.Open? ==> |o.n.stack| + 1 == |n.stack|)
            && (r.boundary.CloseTag? && o.Closed? ==> |n.stack| == 0)
            && (o.Closed? ==> o.n.el.closing.Some?)
  {
  }

  /** The loop over the rounds, from a given state. */
  function Run(mode: Mode, n: Nest, rounds: seq<Round>): Outcome
    decreases |rounds|
  {
    if |rounds| == 0 then Open(n)
    else
      var o := Step(mode, n, rounds[0]);
      if o.Open? then Run(mode, o.n, rounds[1..]) else o
  }

  datatype Parsed = Parsed(el: Meta, errors: seq<JsxError>)

  datatype Failure = TypeError | Unterminated

  /** parseComplexJSXElement: the loop from the root with an empty stack. */
  function ParseComplex(mode: Mode, root: Meta, rounds: seq<Round>): Result<Parsed, Failure> {
    match Run(mode, Nest(root, [], []), rounds)
    case Crashed => Err(TypeError)
    case Closed(n) => Ok(Parsed(n.el, n.errors))
    case Open(n) => if mode == AsWritten then Ok(Parsed(n.el, n.errors)) else Err(Unterminated)
  }

  /**
   * parseJSXElement after its opening tag: the element keeps its opening; a
   * self-closing tag has no children, no closing and no errors; in corrected
   * mode the only failure is an unterminated element, and any other element
   * that parses has a closing tag.
   */
  function ParseJSXElement(mode: Mode, opening: Opening, rounds: seq<Round>): (r: Result<(Child, seq<JsxError>), Failure>)
    ensures r.Ok? ==> r.value.0.JSXElement? && r.value.0.opening == opening
    ensures opening.OpeningElement? && opening.selfClosing ==>
              r.Ok? && r.value.0.children == [] && r.value.0.closing.None? && r.value.1 == []
    ensures mode == Corrected && r.Err? ==> r.error == Unterminated
    ensures mode == Corrected && r.Ok? && !(opening.OpeningElement? && opening.selfClosing) ==> r.value.0.closing.Some?
  {
    RunCorrectedSafe(Nest(Meta(opening, [], None), [], []), rounds);
    if opening.OpeningElement? && opening.selfClosing then Ok((JSXElement(opening, [], None), []))
    else
      match ParseComplex(mode, Meta(opening, [], None), rounds)
      case Err(e) => Err(e)
      case Ok(p) => Ok((JSXElement(opening, p.el.children, p.el.closing), p.errors))
  }

  /**
   * The loop of parseComplexJSXElement with its explicit stack: the current
   * element `el`, the stack of its open ancestors, and the tolerated errors.
   */
  method ParseComplexJSXElement(mode: Mode, root: Meta, rounds: seq<Round>) returns (r: Result<Parsed, Failure>)
    ensures r == ParseComplex(mode, root, rounds)
    ensures mode == Corrected ==> r.Err? ==> r.error == Unterminated
    ensures mode == Corrected && r.Ok? ==> r.value.el.closing.Some?
  {
    var el := root;
    var stack: seq<Meta> := [];
    var errors: seq<JsxError> := [];
    var i := 0;
    RunCorrectedSafe(Nest(root, [], []), rounds);
    while i < |rounds|
      invariant 0 <= i <= |rounds|
      invariant Run(mode, Nest(el, stack, errors), rounds[i..]) == Run(mode, Nest(root, [], []), rounds)
      decreases |rounds| - i
    {
      var round := rounds[i];
      assert rounds[i..][0] == round && rounds[i..][1..] == rounds[i + 1..];
      el := el.(children := el.children + round.children);
      match round.boundary {
        case OpenTag(name, selfClosing, attributes) =>
          var opening := OpeningElement(name, selfClosing, attributes);
          if selfClosing {
            el := el.(children := el.children + [JSXElement(opening, [], None)]);
          } else {
            stack := stack + [el];
            el := Meta(opening, [], None);
          }
        case CloseTag(name) =>
          el := el.(closing := Some(ClosingElement(name)));
          if el.opening.OpeningFragment? {
            if mode == AsWritten {
              return Err(TypeError);
            }
            errors := errors + [FragmentClosedByTag(QualifiedName(name))];
          } else if QualifiedName(el.opening.name) != QualifiedName(name) {
            errors := errors + [ClosingTagMismatch(QualifiedName(el.opening.name))];
          }
          if |stack| > 0 {
            var child := Complete(el);
            el := stack[|stack| - 1];
            el := el.(children := el.children + [child]);
            stack := stack[..|stack| - 1];
          } else {
            return Ok(Parsed(el, errors));
          }
        case CloseFragmentTag =>
          el := el.(closing := Some(ClosingFragment));
          if el.opening.OpeningFragment? {
            return Ok(Parsed(el, errors));
          }
          errors := errors + [ClosingFragmentMismatch];
      }
      i := i + 1;
    }
    assert rounds[i..] == [];
    if mode == Corrected {
      return Err(Unterminated);
    }
    return Ok(Parsed(el, errors));
  }

  /** A stop is always at a closing tag, and the corrected loop never crashes. */
  lemma {:induction false} RunCorrectedSafe(n: Nest, rounds: seq<Round>)
    ensures Run(Corrected, n, rounds) != Crashed
    ensures Run(Corrected, n, rounds).Closed? ==> Run(Corrected, n, rounds).n.el.closing.Some?
    ensures Run(AsWritten, n, rounds).Closed? ==> Run(AsWritten, n, rounds).n.el.closing.Some?
    decreases |rounds|
  {
    if |rounds| > 0 {
      var corrected := Step(Corrected, n, rounds[0]);
      if corrected.Open? {
        RunCorrectedSafe(corrected.n, rounds[1..]);
      }
      var asWritten := Step(AsWritten, n, rounds[0]);
      if asWritten.Open? {
        RunCorrectedSafe(asWritten.n, rounds[1..]);
      }
    }
  }

  // ---------------------------------------------------------------------------
  // One round at a time.

  /** A self-closing tag becomes a child with no children and no closing; the stack is untouched. */
  lemma SelfClosingStep(mode: Mode, n: Nest, cs: seq<Child>, name: ElementName, attributes: seq<Attribute>)
    ensures Step(mode, n, Round(cs, OpenTag(name, true, attributes)))
         == Open(Nest(n.el.(children := n.el.children + cs + [JSXElement(OpeningElement(name, true, attributes), [], None)]),
                      n.stack, n.errors))
  {
  }

  /** Any other opening tag pushes the current element and starts an empty one. */
  lemma OpeningStep(mode: Mode, n: Nest, cs: seq<Child>, name: ElementName, attributes: seq<Attribute>)
    ensures var o := Step(mode, n, Round(cs, OpenTag(name, false, attributes)));
            && o.Open? && |o.n.stack| == |n.stack| + 1
            && o.n.stack[..|n.stack|] == n.stack
            && o.n.stack[|n.stack|] == n.el.(children := n.el.children + cs)
            && o.n.el == Meta(OpeningElement(name, false, attributes), [], None)
            && o.n.errors == n.errors
  {
    var o := Step(mode, n, Round(cs, OpenTag(name, false, attributes)));
    assert o.n.stack == n.stack + [n.el.(children := n.el.children + cs)];
  }

  /**
   * A closing tag on an element records a tolerated error exactly when the
   * two names differ, then pops back to the parent (which receives the
   * finished element) or stops at the root.
   */
  lemma ClosingStep(mode: Mode, n: Nest, cs: seq<Child>, name: ElementName)
    requires n.el.opening.OpeningElement? && WellFormed(n.el.opening.name) && WellFormed(name)
    ensures var o := Step(mode, n, Round(cs, CloseTag(name)));
            var done := Meta(n.el.opening, n.el.children + cs, Some(ClosingElement(name)));
            var errors := if name != n.el.opening.name then n.errors + [ClosingTagMismatch(QualifiedName(n.el.opening.name))]
                          else n.errors;
            o == CloseCurrent(Nest(done, n.stack, errors))
  {
    SameQualifiedNameIffSameName(n.el.opening.name, name);
  }

  /** A closing fragment tag stops the loop on a fragment; on an element it is a tolerated error and the loop goes on. */
  lemma ClosingFragmentStep(mode: Mode, n: Nest, cs: seq<Child>)
    ensures var o := Step(mode, n, Round(cs, CloseFragmentTag));
            var done := Meta(n.el.opening, n.el.children + cs, Some(ClosingFragment));
            && (n.el.opening.OpeningFragment? ==> o == Closed(n.(el := done)))
            && (n.el.opening.OpeningElement? ==> o == Open(Nest(done, n.stack, n.errors + [ClosingFragmentMismatch])))
  {
  }

  // ---------------------------------------------------------------------------
  // Round trip: the rounds a well-formed element produces parse back to it.

  /** The shapes parseJSXBoundaryElement can produce below the root: elements with matching closing tags. */
  predicate WellFormedChild(c: Child)
    decreases c
  {
    c.JSXElement? ==>
      && c.opening.OpeningElement? && WellFormed(c.opening.name)
      && (if c.opening.selfClosing then c.children == [] && c.closing == None
          else c.closing == Some(ClosingElement(c.opening.name))
               && forall k :: 0 <= k < |c.children| ==> WellFormedChild(c.children[k]))
  }

  /** A root: a closed element, or a fragment closed by `</>` holding well-formed children. */
  predicate WellFormedRoot(e: Child) {
    && e.JSXElement?
    && (if e.opening.OpeningFragment? then e.closing == Some(ClosingFragment)
        else !e.opening.selfClosing && WellFormedChild(e))
    && forall k :: 0 <= k < |e.children| ==> WellFormedChild(e.children[k])
  }

  function CloseBoundary(e: Child): Boundary
    requires e.JSXElement?
  {
    if e.opening.OpeningElement? then CloseTag(e.opening.name) else CloseFragmentTag
  }

  /**
   * The rounds for the children of e from k on, then e's closing tag;
   * `pending` holds text and containers not yet followed by a tag.
   */
  function EmitFrom(e: Child, k: nat, pending: seq<Child>): seq<Round>
    requires e.JSXElement? && k <= |e.children|
    decreases e, |e.children| - k
  {
    if k == |e.children| then [Round(pending, CloseBoundary(e))]
    else
      var c := e.children[k];
      if c.JSXElement? && c.opening.OpeningElement? then
        var tag := Round(pending, OpenTag(c.opening.name, c.opening.selfClosing, c.opening.attributes));
        if c.opening.selfClosing then [tag] + EmitFrom(e, k + 1, [])
        else [tag] + EmitFrom(c, 0, []) + EmitFrom(e, k + 1, [])
      else EmitFrom(e, k + 1, pending + [c])
  }

  /** The rounds of an element's content and closing tag. */
  function Emit(e: Child): seq<Round>
    requires e.JSXElement?
  {
    EmitFrom(e, 0, [])
  }

  /** What the loop does once e is finished: hand it to the parent and go on, or stop at the root. */
  function Finish(mode: Mode, n: Nest, rest: seq<Round>): Outcome {
    var o := CloseCurrent(n);
    if o.Open? then Run(mode, o.n, rest) else o
  }

  lemma RunCons(mode: Mode, n: Nest, r: Round, rest: seq<Round>)
    ensures Run(mode, n, [r] + rest) == if Step(mode, n, r).Open? then Run(mode, Step(mode, n, r).n, rest) else Step(mode, n, r)
  {
    assert ([r] + rest)[0] == r && ([r] + rest)[1..] == rest;
  }

  /** What EmitFromRuns needs of e, its first k children and the state. */
  predicate EmitReady(e: Child, k: nat, pending: seq<Child>, el: Meta, stack: seq<Meta>)
  {
    && e.JSXElement? && k <= |e.children|
    && (forall j :: k <= j < |e.children| ==> WellFormedChild(e.children[j]))
    && (e.opening.OpeningElement? ==> e.closing == Some(ClosingElement(e.opening.name)) && WellFormed(e.opening.name))
    && (e.opening.OpeningFragment? ==> e.closing == Some(ClosingFragment) && stack == [])
    && el.opening == e.opening && el.children + pending == e.children[..k]
  }

  /**
   * Running the rounds of e's children from k on, then its closing tag, from
   * a state whose current element is e with its first k children, finishes e.
   */
  lemma {:induction false} EmitFromRuns(mode: Mode, e: Child, k: nat, pending: seq<Child>, el: Meta,
                                        stack: seq<Meta>, errors: seq<JsxError>, rest: seq<Round>)
    requires EmitReady(e, k, pending, el, stack)
    ensures Run(mode, Nest(el, stack, errors), EmitFrom(e, k, pending) + rest)
         == Finish(mode, Nest(Meta(e.opening, e.children, e.closing), stack, errors), rest)
    decreases e, |e.children| - k, 1
  {
    if k == |e.children| {
      EmitClose(mode, e, k, pending, el, stack, errors, rest);
    } else {
      var c := e.children[k];
      if c.JSXElement? && c.opening.OpeningElement? && c.opening.selfClosing {
        EmitSelfClosing(mode, e, k, pending, el, stack, errors, rest);
      } else if c.JSXElement? && c.opening.OpeningElement? {
        EmitNested(mode, e, k, pending, el, stack, errors, rest);
      } else {
        assert e.children[..k + 1] == e.children[..k] + [c];
        EmitFromRuns(mode, e, k + 1, pending + [c], el, stack, errors, rest);
      }
    }
  }

  lemma EmitClose(mode: Mode, e: Child, k: nat, pending: seq<Child>, el: Meta,
                  stack: seq<Meta>, errors: seq<JsxError>, rest: seq<Round>)
    requires EmitReady(e, k, pending, el, stack) && k == |e.children|
    ensures Run(mode, Nest(el, stack, errors), EmitFrom(e, k, pending) + rest)
         == Finish(mode, Nest(Meta(e.opening, e.children, e.closing), stack, errors), rest)
  {
    var n := Nest(el, stack, errors);
    RunCons(mode, n, Round(pending, CloseBoundary(e)), rest);
    assert e.children[..k] == e.children;
    if e.opening.OpeningElement? {
      ClosingStep(mode, n, pending, e.opening.name);
    }
  }

  lemma {:induction false} EmitSelfClosing(mode: Mode, e: Child, k: nat, pending: seq<Child>, el: Meta,
                                           stack: seq<Meta>, errors: seq<JsxError>, rest: seq<Round>)
    requires EmitReady(e, k, pending, el, stack) && k < |e.children|
    requires e.children[k].JSXElement? && e.children[k].opening.OpeningElement? && e.children[k].opening.selfClosing
    ensures Run(mode, Nest(el, stack, errors), EmitFrom(e, k, pending) + rest)
         == Finish(mode, Nest(Meta(e.opening, e.children, e.closing), stack, errors), rest)
    decreases e, |e.children| - k, 0
  {
    var c := e.children[k];
    var n := Nest(el, stack, errors);
    assert e.children[..k + 1] == e.children[..k] + [c];
    var tag := Round(pending, OpenTag(c.opening.name, true, c.opening.attributes));
    assert c == JSXElement(OpeningElement(c.opening.name, true, c.opening.attributes), [], None);
    assert EmitFrom(e, k, pending) + rest == [tag] + (EmitFrom(e, k + 1, []) + rest);
    RunCons(mode, n, tag, EmitFrom(e, k + 1, []) + rest);
    var parent := el.(children := el.children + pending);
    var next := Nest(parent.(children := parent.children + [c]), stack, errors);
    assert Step(mode, n, tag) == Open(next);
    EmitFromRuns(mode, e, k + 1, [], next.el, stack, errors, rest);
  }

  lemma {:induction false} EmitNested(mode: Mode, e: Child, k: nat, pending: seq<Child>, el: Meta,
                                      stack: seq<Meta>, errors: seq<JsxError>, rest: seq<Round>)
    requires EmitReady(e, k, pending, el, stack) && k < |e.children|
    requires e.children[k].JSXElement? && e.children[k].opening.OpeningElement? && !e.children[k].opening.selfClosing
    ensures Run(mode, Nest(el, stack, errors), EmitFrom(e, k, pending) + rest)
         == Finish(mode, Nest(Meta(e.opening, e.children, e.closing), stack, errors), rest)
    decreases e, |e.children| - k, 0
  {
    var c := e.children[k];
    var parent := el.(children := el.children + pending);
    var after := EmitFrom(e, k + 1, []) + rest;
    var inner := Nest(Meta(c.opening, [], None), stack + [parent], errors);
    var next := Nest(parent.(children := parent.children + [c]), stack, errors);
    NestedOpens(mode, e, k, pending, el, stack, errors, rest);
    NestedReady(e, k, pending, el, stack);
    EmitFromRuns(mode, c, 0, [], inner.el, inner.stack, errors, after);
    NestedCloses(mode, c, parent, stack, errors, after);
    EmitFromRuns(mode, e, k + 1, [], next.el, stack, errors, rest);
  }

  /** The nested element is ready to be emitted from scratch, and so is its parent once it is finished. */
  lemma NestedReady(e: Child, k: nat, pending: seq<Child>, el: Meta, stack: seq<Meta>)
    requires EmitReady(e, k, pending, el, stack) && k < |e.children|
    requires e.children[k].JSXElement? && e.children[k].opening.OpeningElement? && !e.children[k].opening.selfClosing
    ensures var c := e.children[k];
            var parent := el.(children := el.children + pending);
            && EmitReady(c, 0, [], Meta(c.opening, [], None), stack + [parent])
            && EmitReady(e, k + 1, [], parent.(children := parent.children + [c]), stack)
  {
    var c := e.children[k];
    assert WellFormedChild(c);
    assert c.children[..0] == [];
    assert e.children[..k + 1] == e.children[..k] + [c];
  }

  /** The closing tag of a nested element hands it, finished, to its parent. */
  lemma NestedCloses(mode: Mode, c: Child, parent: Meta, stack: seq<Meta>, errors: seq<JsxError>, after: seq<Round>)
    requires c.JSXElement?
    ensures Finish(mode, Nest(Meta(c.opening, c.children, c.closing), stack + [parent], errors), after)
         == Run(mode, Nest(parent.(children := parent.children + [c]), stack, errors), after)
  {
    assert (stack + [parent])[..|stack|] == stack;
  }

  /** The opening tag of a nested element pushes its parent and starts it empty. */
  lemma NestedOpens(mode: Mode, e: Child, k: nat, pending: seq<Child>, el: Meta,
                    stack: seq<Meta>, errors: seq<JsxError>, rest: seq<Round>)
    requires EmitReady(e, k, pending, el, stack) && k < |e.children|
    requires e.children[k].JSXElement? && e.children[k].opening.OpeningElement? && !e.children[k].opening.selfClosing
    ensures var c := e.children[k];
            var parent := el.(children := el.children + pending);
            Run(mode, Nest(el, stack, errors), EmitFrom(e, k, pending) + rest)
            == Run(mode, Nest(Meta(c.opening, [], None), stack + [parent], errors),
                   EmitFrom(c, 0, []) + (EmitFrom(e, k + 1, []) + rest))
  {
    var c := e.children[k];
    var n := Nest(el, stack, errors);
    var tag := Round(pending, OpenTag(c.opening.name, false, c.opening.attributes));
    var after := EmitFrom(e, k + 1, []) + rest;
    assert EmitFrom(e, k, pending) + rest == [tag] + (EmitFrom(c, 0, []) + after);
    RunCons(mode, n, tag, EmitFrom(c, 0, []) + after);
    var parent := el.(children := el.children + pending);
    assert Step(mode, n, tag) == Open(Nest(Meta(c.opening, [], None), stack + [parent], errors));
  }

  /**
   * Round trip: parsing the rounds of a well-formed element, in either mode,
   * gives back that element with no tolerated errors, and stops at its
   * closing tag whatever follows.
   */
  lemma ParseEmitted(mode: Mode, e: Child, rest: seq<Round>)
    requires WellFormedRoot(e)
    ensures ParseJSXElement(mode, e.opening, Emit(e) + rest) == Ok((e, []))
  {
    assert e.children[..0] == [];
    EmitFromRuns(mode, e, 0, [], Meta(e.opening, [], None), [], [], rest);
  }

  // ---------------------------------------------------------------------------
  // The two nesting findings on concrete input.

  const A := JSXIdentifier("a")
  const B := JSXIdentifier("b")

  /**
   * `<></a>`: as written, the closing tag makes the parser read the name of
   * the fragment's opening, which has none, and it dies with a TypeError;
   * corrected, the mismatch is tolerated and the fragment is closed.
   */
  lemma FragmentClosedByElementTag()
    ensures ParseJSXElement(AsWritten, OpeningFragment, [Round([], CloseTag(A))]) == Err(TypeError)
    ensures ParseJSXElement(Corrected, OpeningFragment, [Round([], CloseTag(A))])
         == Ok((JSXElement(OpeningFragment, [], Some(ClosingElement(A))), [FragmentClosedByTag("a")]))
  {
    var rounds := [Round([], CloseTag(A))];
    var n := Nest(Meta(OpeningFragment, [], None), [], []);
    assert QualifiedName(A) == "a";
    var closed := Nest(Meta(OpeningFragment, [], Some(ClosingElement(A))), [], [FragmentClosedByTag("a")]);
    assert n.el.children + rounds[0].children == [];
    assert Step(AsWritten, n, rounds[0]) == Crashed;
    assert Step(Corrected, n, rounds[0]) == Closed(closed);
    assert Run(AsWritten, n, rounds) == Crashed;
    assert Run(Corrected, n, rounds) == Closed(closed);
  }

  /**
   * `<a><b>` at the end of input: as written the loop returns the current
   * element `b` with no error, and parseJSXElement dresses `a`'s opening in
   * `b`'s (empty) children, so `b` is lost; corrected, it is an error.
   */
  lemma UnterminatedLosesElement()
    ensures var rounds := [Round([], OpenTag(B, false, []))];
            && ParseJSXElement(AsWritten, OpeningElement(A, false, []), rounds)
               == Ok((JSXElement(OpeningElement(A, false, []), [], None), []))
            && ParseJSXElement(Corrected, OpeningElement(A, false, []), rounds) == Err(Unterminated)
  {
    var rounds := [Round([], OpenTag(B, false, []))];
    var n := Nest(Meta(OpeningElement(A, false, []), [], None), [], []);
    var inner := Nest(Meta(OpeningElement(B, false, []), [], None), [Meta(OpeningElement(A, false, []), [], None)], []);
    var el := n.el.(children := n.el.children + rounds[0].children);
    assert el == Meta(OpeningElement(A, false, []), [], None);
    assert n.stack + [el] == inner.stack;
    assert Step(AsWritten, n, rounds[0]) == Open(inner);
    assert Step(Corrected, n, rounds[0]) == Open(inner);
    assert rounds[1..] == [];
    assert Run(AsWritten, n, rounds) == Open(inner);
    assert Run(Corrected, n, rounds) == Open(inner);
  }
}
