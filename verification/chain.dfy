/**
 * Member/call chains (src/parser.ts: the loop in
 * parseLeftHandSideExpressionAllowCall).
 *
 * After the head expression the parser folds links onto it, left to right:
 * calls, computed and static member accesses and tagged templates, each
 * possibly introduced by `?.`. The token-level parsing of arguments,
 * properties and templates is abstracted: a link carries its parsed parts.
 */
module Chain {
  import opened Wrappers
  import opened Nodes
  import opened Tokens
  import opened Cover

  /**
   * A call link carries, besides its arguments, the first
   * cover-initialized-name error its spread arguments recorded: a spread
   * argument is parsed with inheritCoverGrammar (src/parser.ts:816-820), so
   * an error inside `f(...{a = 1})` is not raised by the call but left for an
   * enclosing isolate. Other arguments are isolated and raise their own.
   */
  datatype LinkKind =
    | CallLink(args: seq<Node>, spreadError: Option<RawToken>)
    | IndexLink(index: Node)
    | TemplateLink(quasi: Node)
    | DotLink(name: Node)

  /** One link; `optional` means it was introduced by `?.`. */
  datatype Link = Link(optional: bool, kind: LinkKind)

  datatype ChainError =
    | UnexpectedTemplate(at: nat)               // a template right after `?.`
    | InvalidTaggedTemplateOnOptionalChain(at: nat)

  /** Tolerated (recorded, not thrown) errors. */
  datatype Tolerated = BadImportCallArity

  datatype Chained = Chained(expr: Node, cover: CoverState, tolerated: seq<Tolerated>)

  /** The node one link builds on top of the expression so far. */
  function Extend(expr: Node, link: Link): (n: Node)
    ensures !n.Import?
  {
    match link.kind
    case CallLink(args, _) => CallExpression(expr, args, link.optional)
    case IndexLink(index) => MemberExpression(true, expr, index, link.optional)
    case TemplateLink(quasi) => TaggedTemplateExpression(expr, quasi)
    case DotLink(name) => MemberExpression(false, expr, name, link.optional)
  }

  /** Reference: the first k links folded onto the head, left to right. */
  function Fold(head: Node, links: seq<Link>, k: nat): Node
    requires k <= |links|
  {
    if k == 0 then head else Extend(Fold(head, links, k - 1), links[k - 1])
  }

  /** Some link before k was introduced by `?.`. */
  predicate AnyOptional(links: seq<Link>, k: nat)
    requires k <= |links|
  {
    k > 0 && (AnyOptional(links, k - 1) || links[k - 1].optional)
  }

  lemma {:induction false} AnyOptionalMeans(links: seq<Link>, k: nat)
    requires k <= |links|
    ensures AnyOptional(links, k) <==> exists j :: 0 <= j < k && links[j].optional
  {
    if k > 0 {
      AnyOptionalMeans(links, k - 1);
    }
  }

  /** Link i is a template and some link up to and including it was optional. */
  predicate TemplateConflict(links: seq<Link>, i: nat)
    requires i < |links|
  {
    links[i].kind.TemplateLink? && AnyOptional(links, i + 1)
  }

  /** No link before k is a template conflict. */
  predicate ConflictFree(links: seq<Link>, k: nat)
    requires k <= |links|
  {
    k == 0 || (ConflictFree(links, k - 1) && !TemplateConflict(links, k - 1))
  }

  lemma {:induction false} ConflictFreeMeans(links: seq<Link>, k: nat)
    requires k <= |links|
    ensures ConflictFree(links, k) <==> forall j :: 0 <= j < k ==> !TemplateConflict(links, j)
  {
    if k > 0 {
      ConflictFreeMeans(links, k - 1);
    }
  }

  /** The last link before k that updates the cover flags (every kind but a template). */
  function LastFlagLink(links: seq<Link>, k: nat): (r: Option<nat>)
    requires k <= |links|
    ensures r.Some? ==> r.value < k && !links[r.value].kind.TemplateLink?
    ensures r.Some? ==> forall j :: r.value < j < k ==> links[j].kind.TemplateLink?
    ensures r.None? ==> forall j :: 0 <= j < k ==> links[j].kind.TemplateLink?
  {
    if k == 0 then None
    else if !links[k - 1].kind.TemplateLink? then Some(k - 1)
    else LastFlagLink(links, k - 1)
  }

  /** The cover error a link's spread arguments recorded; only calls have arguments. */
  function SpreadError(link: Link): Option<RawToken> {
    if link.kind.CallLink? then link.kind.spreadError else None
  }

  /** Reference: the cover error after the links before k; the earliest one recorded wins. */
  function ErrorAfter(cover: CoverState, links: seq<Link>, k: nat): Option<RawToken>
    requires k <= |links|
  {
    if k == 0 then cover.firstCoverInitializedNameError
    else if ErrorAfter(cover, links, k - 1).Some? then ErrorAfter(cover, links, k - 1)
    else SpreadError(links[k - 1])
  }

  /**
   * The cover error after k links is the incoming one if there was one, and
   * otherwise the spread error of the first call that recorded one.
   */
  lemma {:induction false} ErrorAfterMeans(cover: CoverState, links: seq<Link>, k: nat)
    requires k <= |links|
    ensures cover.firstCoverInitializedNameError.Some? ==>
              ErrorAfter(cover, links, k) == cover.firstCoverInitializedNameError
    ensures cover.firstCoverInitializedNameError.None? ==>
              (ErrorAfter(cover, links, k).Some? <==> exists j :: 0 <= j < k && SpreadError(links[j]).Some?)
    ensures cover.firstCoverInitializedNameError.None? && ErrorAfter(cover, links, k).Some? ==>
              exists j :: 0 <= j < k && ErrorAfter(cover, links, k) == SpreadError(links[j])
                          && forall i :: 0 <= i < j ==> SpreadError(links[i]).None?
  {
    if k > 0 {
      ErrorAfterMeans(cover, links, k - 1);
      if cover.firstCoverInitializedNameError.None? && ErrorAfter(cover, links, k - 1).None? {
        assert forall j :: 0 <= j < k - 1 ==> SpreadError(links[j]).None?;
        if SpreadError(links[k - 1]).Some? {
          assert ErrorAfter(cover, links, k) == SpreadError(links[k - 1]);
        }
      }
    }
  }

  /** The cover state the loop computes: LinkFlags applied to each link in turn. */
  function FoldFlags(cover: CoverState, links: seq<Link>, k: nat): CoverState
    requires k <= |links|
  {
    if k == 0 then cover else LinkFlags(FoldFlags(cover, links, k - 1), links[k - 1])
  }

  /** Link by link, the cover state is the one the last flag link and the first spread error decide. */
  lemma {:induction false} FoldFlagsIsFlagsAfter(cover: CoverState, links: seq<Link>, k: nat)
    requires k <= |links|
    ensures FoldFlags(cover, links, k) == FlagsAfter(cover, links, k)
  {
    if k > 0 {
      FoldFlagsIsFlagsAfter(cover, links, k - 1);
      FlagsAfterStep(cover, links, k - 1);
    }
  }

  /** ErrorAfterMeans for the whole chain, read off the final cover state. */
  lemma FinalError(cover: CoverState, links: seq<Link>)
    ensures cover.firstCoverInitializedNameError.Some? ==>
              FlagsAfter(cover, links, |links|).firstCoverInitializedNameError == cover.firstCoverInitializedNameError
    ensures cover.firstCoverInitializedNameError.None? ==>
              (FlagsAfter(cover, links, |links|).firstCoverInitializedNameError.Some? <==>
                 exists j :: 0 <= j < |links| && SpreadError(links[j]).Some?)
  {
    ErrorAfterMeans(cover, links, |links|);
  }

  /**
   * The cover state after the links before k: the two flags are decided by
   * the last non-template link, and the error by the first one recorded.
   */
  function FlagsAfter(cover: CoverState, links: seq<Link>, k: nat): CoverState
    requires k <= |links|
  {
    var c := cover.(firstCoverInitializedNameError := ErrorAfter(cover, links, k));
    match LastFlagLink(links, k)
    case None => c
    case Some(j) =>
      c.(isBindingElement := false,
         isAssignmentTarget := !links[j].kind.CallLink? && !links[j].optional)
  }

  /**
   * Only the head can be `import`, so only a first link that calls it can
   * break the one-argument rule.
   */
  function ImportArityErrors(head: Node, links: seq<Link>): seq<Tolerated> {
    if |links| > 0 && head.Import? && links[0].kind.CallLink? && |links[0].kind.args| != 1
    then [BadImportCallArity] else []
  }

  /**
   * The link loop. It fails at the first template link that is itself
   * optional or follows an optional link; otherwise the result is the folded
   * expression, wrapped in a ChainExpression exactly when some link was
   * optional. The cover error is the incoming one, or else the first one a
   * call's spread arguments recorded. An `import(...)` call with other than
   * one argument is tolerated and recorded.
   */
  method ParseChain(head: Node, links: seq<Link>, cover: CoverState) returns (r: Result<Chained, ChainError>)
    ensures r.Ok? <==> ConflictFree(links, |links|)
    ensures r.Err? ==> r.error.at < |links| && TemplateConflict(links, r.error.at) && ConflictFree(links, r.error.at)
    ensures r.Err? ==> (r.error.UnexpectedTemplate? <==> links[r.error.at].optional)
    ensures r.Ok? ==> r.value.expr == if AnyOptional(links, |links|) then ChainExpression(Fold(head, links, |links|)) else Fold(head, links, |links|)
    ensures r.Ok? ==> r.value.cover == FlagsAfter(cover, links, |links|)
    ensures r.Ok? && cover.firstCoverInitializedNameError.Some? ==>
              r.value.cover.firstCoverInitializedNameError == cover.firstCoverInitializedNameError
    ensures r.Ok? && cover.firstCoverInitializedNameError.None? ==>
              (r.value.cover.firstCoverInitializedNameError.Some? <==>
                 exists j :: 0 <= j < |links| && SpreadError(links[j]).Some?)
    ensures r.Ok? ==> r.value.tolerated == ImportArityErrors(head, links)
  {
    var st := LoopState(head, false, cover, []);
    var i := 0;
    while i < |links|
      invariant 0 <= i <= |links|
      invariant st == FoldState(head, cover, links, i)
      invariant ConflictFree(links, i)
    {
      var link := links[i];
      FoldStateMeans(head, cover, links, i);
      if link.kind.TemplateLink? && link.optional {
        ConflictStops(links, i, |links|);
        return Err(UnexpectedTemplate(i));
      }
      if link.kind.TemplateLink? && st.hasOptional {
        ConflictStops(links, i, |links|);
        return Err(InvalidTaggedTemplateOnOptionalChain(i));
      }
      assert FoldState(head, cover, links, i + 1) == LinkStep(st, link);
      st := LinkStep(st, link);
      i := i + 1;
    }
    FoldStateMeans(head, cover, links, |links|);
    FoldFlagsIsFlagsAfter(cover, links, |links|);
    FinalError(cover, links);
    var e := if st.hasOptional then ChainExpression(st.expr) else st.expr;
    return Ok(Chained(e, st.flags, st.tolerated));
  }

  /** The loop's variables: the expression so far, the optional mark, the cover state and the tolerated errors. */
  datatype LoopState = LoopState(expr: Node, hasOptional: bool, flags: CoverState, tolerated: seq<Tolerated>)

  /**
   * One pass of the loop body after the template checks: mark `?.`, update
   * the cover state, tolerate a bad `import()` arity, and extend the expression.
   */
  function LinkStep(st: LoopState, link: Link): LoopState {
    LoopState(Extend(st.expr, link), st.hasOptional || link.optional, LinkFlags(st.flags, link),
              if link.kind.CallLink? && st.expr.Import? && |link.kind.args| != 1
              then st.tolerated + [BadImportCallArity] else st.tolerated)
  }

  /** The loop's variables after the first k links. */
  function FoldState(head: Node, cover: CoverState, links: seq<Link>, k: nat): LoopState
    requires k <= |links|
  {
    if k == 0 then LoopState(head, false, cover, []) else LinkStep(FoldState(head, cover, links, k - 1), links[k - 1])
  }

  /** The loop's variables after k links, each by its own reference. */
  lemma FoldStateMeans(head: Node, cover: CoverState, links: seq<Link>, k: nat)
    requires k <= |links|
    ensures var st := FoldState(head, cover, links, k);
            && st.expr == Fold(head, links, k)
            && (st.hasOptional <==> AnyOptional(links, k))
            && st.flags == FoldFlags(cover, links, k)
            && (k > 0 ==> !st.expr.Import?)
            && st.tolerated == if k == 0 then [] else ImportArityErrors(head, links)
  {
    FoldStateExpr(head, cover, links, k);
    FoldStateOptional(head, cover, links, k);
    FoldStateFlags(head, cover, links, k);
    FoldStateTolerated(head, cover, links, k);
  }

  lemma {:induction false} FoldStateExpr(head: Node, cover: CoverState, links: seq<Link>, k: nat)
    requires k <= |links|
    ensures FoldState(head, cover, links, k).expr == Fold(head, links, k)
  {
    if k > 0 {
      FoldStateExpr(head, cover, links, k - 1);
      var prev := FoldState(head, cover, links, k - 1);
      assert FoldState(head, cover, links, k).expr == Extend(prev.expr, links[k - 1]);
    }
  }

  lemma {:induction false} FoldStateOptional(head: Node, cover: CoverState, links: seq<Link>, k: nat)
    requires k <= |links|
    ensures FoldState(head, cover, links, k).hasOptional <==> AnyOptional(links, k)
  {
    if k > 0 {
      FoldStateOptional(head, cover, links, k - 1);
    }
  }

  lemma {:induction false} FoldStateFlags(head: Node, cover: CoverState, links: seq<Link>, k: nat)
    requires k <= |links|
    ensures FoldState(head, cover, links, k).flags == FoldFlags(cover, links, k)
  {
    if k > 0 {
      FoldStateFlags(head, cover, links, k - 1);
    }
  }

  lemma {:induction false} FoldStateTolerated(head: Node, cover: CoverState, links: seq<Link>, k: nat)
    requires k <= |links|
    ensures k > 0 ==> !FoldState(head, cover, links, k).expr.Import?
    ensures FoldState(head, cover, links, k).tolerated == if k == 0 then [] else ImportArityErrors(head, links)
  {
    if k > 0 {
      FoldStateTolerated(head, cover, links, k - 1);
      if k == 1 {
        FoldStateExpr(head, cover, links, 0);
      }
    }
  }

  /**
   * The cover state after one link: a call, a member access or a computed
   * access ends the binding element, and only a plain (non-`?.`) member
   * access stays assignable; a tagged template leaves them alone. A call
   * inherits what its spread arguments recorded.
   */
  function LinkFlags(flags: CoverState, link: Link): (c: CoverState)
    ensures link.kind.TemplateLink? ==> c == flags
    ensures !link.kind.TemplateLink? ==>
              !c.isBindingElement && (c.isAssignmentTarget <==> !link.kind.CallLink? && !link.optional)
    ensures flags.firstCoverInitializedNameError.Some? ==>
              c.firstCoverInitializedNameError == flags.firstCoverInitializedNameError
    ensures flags.firstCoverInitializedNameError.None? ==> c.firstCoverInitializedNameError == SpreadError(link)
  {
    match link.kind
    case CallLink(_, spreadError) =>
      Inherit(flags.(isBindingElement := false, isAssignmentTarget := false),
              Fresh.(firstCoverInitializedNameError := spreadError))
    case IndexLink(_) => flags.(isBindingElement := false, isAssignmentTarget := !link.optional)
    case TemplateLink(_) => flags
    case DotLink(_) => flags.(isBindingElement := false, isAssignmentTarget := !link.optional)
  }

  /**
   * What one more link that is not a template conflict does: it extends the
   * folded expression, may set the optional mark, keeps the prefix
   * conflict-free and updates the cover flags.
   */
  lemma ChainStep(head: Node, cover: CoverState, links: seq<Link>, i: nat)
    requires i < |links| && ConflictFree(links, i)
    requires !(links[i].kind.TemplateLink? && (links[i].optional || AnyOptional(links, i)))
    ensures Fold(head, links, i + 1) == Extend(Fold(head, links, i), links[i])
    ensures AnyOptional(links, i + 1) == (AnyOptional(links, i) || links[i].optional)
    ensures ConflictFree(links, i + 1)
    ensures FlagsAfter(cover, links, i + 1) == LinkFlags(FlagsAfter(cover, links, i), links[i])
  {
    FlagsAfterStep(cover, links, i);
  }

  /** Any link, template or not, moves the cover state on by LinkFlags. */
  lemma FlagsAfterStep(cover: CoverState, links: seq<Link>, i: nat)
    requires i < |links|
    ensures FlagsAfter(cover, links, i + 1) == LinkFlags(FlagsAfter(cover, links, i), links[i])
  {
  }

  /** A conflict at i rules out a conflict-free prefix that contains it. */
  lemma {:induction false} ConflictStops(links: seq<Link>, i: nat, k: nat)
    requires i < k <= |links| && TemplateConflict(links, i)
    ensures !ConflictFree(links, k)
    decreases k - i
  {
    if i + 1 < k {
      ConflictStops(links, i, k - 1);
    }
  }

  /** Without `?.` links the chain is never wrapped and cannot fail. */
  lemma PlainChainNeverFails(links: seq<Link>)
    requires forall i :: 0 <= i < |links| ==> !links[i].optional
    ensures ConflictFree(links, |links|)
    ensures !AnyOptional(links, |links|)
  {
    AnyOptionalMeans(links, |links|);
    forall i | 0 <= i < |links|
      ensures !TemplateConflict(links, i)
    {
      AnyOptionalMeans(links, i + 1);
    }
    ConflictFreeMeans(links, |links|);
  }

  /** `a?.b.c` keeps a single ChainExpression around the whole chain. */
  lemma OptionalWrapsWholeChain(a: Node, b: Node, c: Node)
    ensures var links := [Link(true, DotLink(b)), Link(false, DotLink(c))];
            AnyOptional(links, 2)
            && Fold(a, links, 2) == MemberExpression(false, MemberExpression(false, a, b, true), c, false)
  {
    var links := [Link(true, DotLink(b)), Link(false, DotLink(c))];
    assert AnyOptional(links, 1);
    assert Fold(a, links, 1) == MemberExpression(false, a, b, true);
  }

  /** A member access after `?.` is never an assignment target. */
  lemma OptionalMemberNotAssignable(cover: CoverState, links: seq<Link>)
    requires |links| > 0 && links[|links| - 1].optional && !links[|links| - 1].kind.TemplateLink?
    ensures !FlagsAfter(cover, links, |links|).isAssignmentTarget
    ensures !FlagsAfter(cover, links, |links|).isBindingElement
  {
  }

  /**
   * `f(...{a = 1})`: the spread argument's cover-initialized-name error
   * survives the call, and the isolate around the whole expression raises it.
   */
  lemma SpreadInitializerLeaks(f: Node, x: Node, t: RawToken, prior: CoverState)
    ensures var links := [Link(false, CallLink([SpreadElement(x)], Some(t)))];
            && FlagsAfter(Fresh, links, 1).firstCoverInitializedNameError == Some(t)
            && Isolate(prior, FlagsAfter(Fresh, links, 1)) == Err(t)
  {
    var links := [Link(false, CallLink([SpreadElement(x)], Some(t)))];
    assert ErrorAfter(Fresh, links, 0) == None;
  }
}
