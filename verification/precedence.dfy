/**
 * Binary-expression precedence climbing (src/parser.ts: PrecedenceTable,
 * the operator-precedence override in the constructor, binaryPrecedence and
 * parseBinaryExpression).
 *
 * The operand parser (parseExponentiationExpression) is abstracted away: the
 * input is the first operand followed by (operator token, operand) steps, and
 * climbing stops at the first step whose token has no positive precedence.
 */
module Precedence {
  import opened Wrappers
  import opened Tokens
  import opened Nodes

  /** Operator -> binding strength; larger binds tighter. */
  type Table = map<string, int>

  /** The fixed default table every parser instance starts from. */
  const DefaultTable: Table := map[
    ")" := 0, ";" := 0, "," := 0, "=" := 0, "]" := 0,
    "??" := 5, "||" := 6, "&&" := 7, "|" := 8, "^" := 9, "&" := 10,
    "==" := 11, "!=" := 11, "===" := 11, "!==" := 11,
    "<" := 12, ">" := 12, "<=" := 12, ">=" := 12,
    "<<" := 13, ">>" := 13, ">>>" := 13,
    "+" := 14, "-" := 14,
    "*" := 15, "/" := 15, "%" := 15
  ]

  /** A caller-supplied override: a number for an operator, or undefined (None). */
  type Override = string -> Option<int>

  /**
   * The per-instance table: a copy of the default in which every operator the
   * override gives a number for takes that number.
   */
  function BuildTable(override: Option<Override>): (t: Table)
    ensures t.Keys == DefaultTable.Keys
    ensures override.None? ==> t == DefaultTable
    ensures forall op :: op in t && override.Some? && override.value(op).Some? ==> t[op] == override.value(op).value
    ensures forall op :: op in t && (override.None? || override.value(op).None?) ==> t[op] == DefaultTable[op]
  {
    match override
    case None => DefaultTable
    case Some(f) =>
      map op | op in DefaultTable :: if f(op).Some? then f(op).value else DefaultTable[op]
  }

  /** An override that answers undefined for every operator yields the default table. */
  lemma NoOpOverrideIsNoOverride(f: Override)
    requires forall op :: f(op).None?
    ensures BuildTable(Some(f)) == BuildTable(None)
  {
    var t := BuildTable(Some(f));
    assert t.Keys == DefaultTable.Keys;
    assert forall op :: op in t ==> t[op] == DefaultTable[op];
  }

  /**
   * The binding strength of the lookahead token. Punctuators are looked up in
   * the table (absent means 0); the keywords `instanceof`, and `in` where
   * allowed, bind at 12 whatever the table says; every other token is 0.
   */
  function BinaryPrecedence(table: Table, allowIn: bool, token: RawToken): (p: int)
    ensures token.kind == Punctuator && token.value.StrValue? && token.value.s in table ==> p == table[token.value.s]
    ensures token.kind == Punctuator && !(token.value.StrValue? && token.value.s in table) ==> p == 0
    ensures token.kind == Keyword ==>
              p == (if token.value == StrValue("instanceof") || (allowIn && token.value == StrValue("in")) then 12 else 0)
    ensures token.kind != Punctuator && token.kind != Keyword ==> p == 0
    ensures p != 0 ==> token.value.StrValue?
  {
    if token.kind == Punctuator then
      (if token.value.StrValue? && token.value.s in table then table[token.value.s] else 0)
    else if token.kind == Keyword then
      (if token.value == StrValue("instanceof") || (allowIn && token.value == StrValue("in")) then 12 else 0)
    else 0
  }

  /** The text of an operator token (binary operators always carry a string). */
  function OperatorText(token: RawToken): string {
    if token.value.StrValue? then token.value.s else ""
  }

  // ---------------------------------------------------------------------------
  // Result trees, their in-order reading, and the precedence ordering. The
  // operands are opaque to climbing, so trees are generic in the operand type.

  /** The climbed tree; every inner node remembers the precedence it was built at. */
  datatype Tree<N> = Leaf(operand: N) | Bin(op: string, prec: int, left: Tree<N>, right: Tree<N>)

  /** The syntax node a climbed tree stands for. */
  function ToNode(t: Tree<Node>): (n: Node)
    ensures t.Leaf? ==> n == t.operand
    ensures t.Bin? ==> n.BinaryExpression? && n.operator == t.op
    ensures t.Bin? ==> n.left == ToNode(t.left) && n.right == ToNode(t.right)
  {
    match t
    case Leaf(n) => n
    case Bin(op, _, l, r) => BinaryExpression(op, ToNode(l), ToNode(r))
  }

  datatype Item<N> = Operand(node: N) | Operator(op: string, prec: int)

  /** The in-order reading of a tree: operands and operators as they appeared in the source. */
  function Yield<N>(t: Tree<N>): (ys: seq<Item<N>>)
    ensures |ys| % 2 == 1
    ensures |ys| == 1 <==> t.Leaf?
    ensures ys[0].Operand? && ys[|ys| - 1].Operand?
  {
    match t
    case Leaf(n) => [Operand(n)]
    case Bin(op, p, l, r) => Yield(l) + [Operator(op, p)] + Yield(r)
  }

  /** A tree that may stand as the left operand of an operator of precedence p. */
  predicate BindsLeft<N>(t: Tree<N>, p: int) {
    t.Leaf? || t.prec >= p
  }

  /** A tree that may stand as the right operand of an operator of precedence p. */
  predicate BindsRight<N>(t: Tree<N>, p: int) {
    t.Leaf? || t.prec > p
  }

  /**
   * Precedence order: a left child binds at least as tightly as its parent and a
   * right child strictly more tightly, so equal precedences associate to the left
   * and tighter operators sit deeper.
   */
  predicate Ordered<N>(t: Tree<N>) {
    match t
    case Leaf(_) => true
    case Bin(_, p, l, r) => Ordered(l) && Ordered(r) && BindsLeft(l, p) && BindsRight(r, p)
  }

  /** Every operator in the tree passed the binary-operator narrowing. */
  predicate AllBinary<N>(t: Tree<N>) {
    match t
    case Leaf(_) => true
    case Bin(op, _, l, r) => op in BinaryOperators && AllBinary(l) && AllBinary(r)
  }

  predicate OpsAtLeast<N>(ys: seq<Item<N>>, p: int) {
    forall i :: 0 <= i < |ys| && ys[i].Operator? ==> ys[i].prec >= p
  }

  predicate OpsAbove<N>(ys: seq<Item<N>>, p: int) {
    forall i :: 0 <= i < |ys| && ys[i].Operator? ==> ys[i].prec > p
  }

  /** In an ordered tree every operator binds at least as tightly as the root. */
  lemma {:induction false} OrderedOpsBound<N>(t: Tree<N>, p: int)
    requires Ordered(t)
    ensures BindsLeft(t, p) ==> OpsAtLeast(Yield(t), p)
    ensures BindsRight(t, p) ==> OpsAbove(Yield(t), p)
  {
    match t
    case Leaf(_) =>
    case Bin(op, q, l, r) =>
      OrderedOpsBound(l, q);
      OrderedOpsBound(r, q);
      var ys := Yield(t);
      forall i | 0 <= i < |ys| && ys[i].Operator?
        ensures ys[i].prec >= q
      {
        if i < |Yield(l)| {
          assert ys[i] == Yield(l)[i];
        } else if i > |Yield(l)| {
          assert ys[i] == Yield(r)[i - |Yield(l)| - 1];
        }
      }
  }

  /** The operators of a tree that passed the narrowing are binary operators. */
  lemma {:induction false} AllBinaryYield<N>(t: Tree<N>)
    requires AllBinary(t)
    ensures forall i :: 0 <= i < |Yield(t)| && Yield(t)[i].Operator? ==> Yield(t)[i].op in BinaryOperators
  {
    match t
    case Leaf(_) =>
    case Bin(op, q, l, r) =>
      AllBinaryYield(l);
      AllBinaryYield(r);
      var ys := Yield(t);
      forall i | 0 <= i < |ys| && ys[i].Operator?
        ensures ys[i].op in BinaryOperators
      {
        if i < |Yield(l)| {
          assert ys[i] == Yield(l)[i];
        } else if i > |Yield(l)| {
          assert ys[i] == Yield(r)[i - |Yield(l)| - 1];
        }
      }
  }

  /**
   * The root of an ordered tree is where its reading splits: operators left of
   * it bind at least as tightly, operators right of it strictly more tightly.
   */
  lemma RootReading<N>(t: Tree<N>)
    requires Ordered(t) && t.Bin?
    ensures Yield(t)[|Yield(t.left)|] == Operator(t.op, t.prec)
    ensures forall i :: 0 <= i < |Yield(t.left)| && Yield(t)[i].Operator? ==> Yield(t)[i].prec >= t.prec
    ensures forall i :: |Yield(t.left)| < i < |Yield(t)| && Yield(t)[i].Operator? ==> Yield(t)[i].prec > t.prec
  {
    assert Yield(t) == Yield(t.left) + [Operator(t.op, t.prec)] + Yield(t.right);
    SplitReading(Yield(t.left), Operator(t.op, t.prec), Yield(t.right));
    OrderedOpsBound(t.left, t.prec);
    OrderedOpsBound(t.right, t.prec);
  }

  lemma SplitReading<N>(l: seq<Item<N>>, x: Item<N>, r: seq<Item<N>>)
    ensures forall i :: 0 <= i < |l| ==> (l + [x] + r)[i] == l[i]
    ensures (l + [x] + r)[|l|] == x
    ensures forall i :: |l| < i < |l| + 1 + |r| ==> (l + [x] + r)[i] == r[i - |l| - 1]
  {
  }

  /** A reading has at most one place where an ordered tree's root can sit. */
  lemma SplitPointUnique<N>(ys: seq<Item<N>>, a: nat, b: nat)
    requires a < |ys| && b < |ys| && ys[a].Operator? && ys[b].Operator?
    requires forall i :: 0 <= i < a && ys[i].Operator? ==> ys[i].prec >= ys[a].prec
    requires forall i :: a < i < |ys| && ys[i].Operator? ==> ys[i].prec > ys[a].prec
    requires forall i :: 0 <= i < b && ys[i].Operator? ==> ys[i].prec >= ys[b].prec
    requires forall i :: b < i < |ys| && ys[i].Operator? ==> ys[i].prec > ys[b].prec
    ensures a == b
  {
  }

  /**
   * The reading of an expression determines its ordered tree: precedence
   * climbing has exactly one correct answer, whatever algorithm computes it.
   */
  lemma {:induction false} OrderedTreeUnique<N>(t1: Tree<N>, t2: Tree<N>)
    requires Ordered(t1) && Ordered(t2)
    requires Yield(t1) == Yield(t2)
    ensures t1 == t2
  {
    if t1.Bin? && t2.Bin? {
      SameRoot(t1, t2);
      OrderedTreeUnique(t1.left, t2.left);
      OrderedTreeUnique(t1.right, t2.right);
    }
  }

  /** Two ordered trees with the same reading split it at the same root. */
  lemma SameRoot<N>(t1: Tree<N>, t2: Tree<N>)
    requires Ordered(t1) && Ordered(t2) && t1.Bin? && t2.Bin?
    requires Yield(t1) == Yield(t2)
    ensures t1.op == t2.op && t1.prec == t2.prec
    ensures Yield(t1.left) == Yield(t2.left) && Yield(t1.right) == Yield(t2.right)
  {
    SameSplitPoint(t1, t2);
    SplitParts(Yield(t1.left), Operator(t1.op, t1.prec), Yield(t1.right));
    SplitParts(Yield(t2.left), Operator(t2.op, t2.prec), Yield(t2.right));
  }

  lemma SameSplitPoint<N>(t1: Tree<N>, t2: Tree<N>)
    requires Ordered(t1) && Ordered(t2) && t1.Bin? && t2.Bin?
    requires Yield(t1) == Yield(t2)
    ensures |Yield(t1.left)| == |Yield(t2.left)|
  {
    RootReading(t1);
    RootReading(t2);
    SplitPointUnique(Yield(t1), |Yield(t1.left)|, |Yield(t2.left)|);
  }

  lemma SplitParts<N>(l: seq<Item<N>>, x: Item<N>, r: seq<Item<N>>)
    ensures (l + [x] + r)[..|l|] == l && (l + [x] + r)[|l|] == x && (l + [x] + r)[|l| + 1..] == r
  {
  }

  // ---------------------------------------------------------------------------
  // The input and its error conditions.

  /** One operator token followed by the operand parsed after it. */
  datatype Step<N> = Step(op: RawToken, operand: N)

  predicate IsAndOr(s: string) {
    s == "&&" || s == "||"
  }

  /** The number of steps precedence climbing consumes: up to the first token that binds at 0 or less. */
  function ClimbLength<N>(precOf: RawToken -> int, steps: seq<Step<N>>, from: nat): (n: nat)
    requires from <= |steps|
    ensures from <= n <= |steps|
    ensures forall i :: from <= i < n ==> precOf(steps[i].op) > 0
    ensures n < |steps| ==> precOf(steps[n].op) <= 0
    decreases |steps| - from
  {
    if from == |steps| || precOf(steps[from].op) <= 0 then from
    else ClimbLength(precOf, steps, from + 1)
  }

  /** `??` occurs among the operators of steps [0, k). */
  predicate SawNullish<N>(steps: seq<Step<N>>, k: nat)
    requires k <= |steps|
  {
    k > 0 && (SawNullish(steps, k - 1) || OperatorText(steps[k - 1].op) == "??")
  }

  /** `&&` or `||` occurs among the operators of steps [0, k). */
  predicate SawAndOr<N>(steps: seq<Step<N>>, k: nat)
    requires k <= |steps|
  {
    k > 0 && (SawAndOr(steps, k - 1) || IsAndOr(OperatorText(steps[k - 1].op)))
  }

  /** Step j mixes `??` with `&&`/`||` from an earlier step, or the other way round. */
  predicate ConflictAt<N>(steps: seq<Step<N>>, j: nat)
    requires j < |steps|
  {
    || (IsAndOr(OperatorText(steps[j].op)) && SawNullish(steps, j))
    || (OperatorText(steps[j].op) == "??" && SawAndOr(steps, j))
  }

  /** No step among [0, k) is a conflict. */
  predicate NoConflictBefore<N>(steps: seq<Step<N>>, k: nat)
    requires k <= |steps|
  {
    k == 0 || (NoConflictBefore(steps, k - 1) && !ConflictAt(steps, k - 1))
  }

  /** The recursive definitions say what they mean: an earlier step carries the operator. */
  lemma {:induction false} SawMeansOccurs<N>(steps: seq<Step<N>>, k: nat)
    requires k <= |steps|
    ensures SawNullish(steps, k) <==> exists i :: 0 <= i < k && OperatorText(steps[i].op) == "??"
    ensures SawAndOr(steps, k) <==> exists i :: 0 <= i < k && IsAndOr(OperatorText(steps[i].op))
    ensures NoConflictBefore(steps, k) <==> forall j :: 0 <= j < k ==> !ConflictAt(steps, j)
  {
    if k > 0 {
      SawMeansOccurs(steps, k - 1);
      if OperatorText(steps[k - 1].op) == "??" {
        assert OperatorText(steps[k - 1].op) == "??";
      }
      if IsAndOr(OperatorText(steps[k - 1].op)) {
        assert IsAndOr(OperatorText(steps[k - 1].op));
      }
    }
  }

  /** Every operator among steps [0, k) passes the binary-operator narrowing. */
  predicate AllOperatorsBinary<N>(steps: seq<Step<N>>, k: nat)
    requires k <= |steps|
  {
    k == 0 || (AllOperatorsBinary(steps, k - 1) && OperatorText(steps[k - 1].op) in BinaryOperators)
  }

  /** The reading of the first operand and the first k steps. */
  function Expected<N>(precOf: RawToken -> int, first: N, steps: seq<Step<N>>, k: nat): (ys: seq<Item<N>>)
    requires k <= |steps|
    ensures |ys| == 2 * k + 1
  {
    if k == 0 then [Operand(first)]
    else
      Expected(precOf, first, steps, k - 1)
      + [Operator(OperatorText(steps[k - 1].op), precOf(steps[k - 1].op)),
         Operand(steps[k - 1].operand)]
  }

  lemma {:induction false} ExpectedOperatorAt<N>(precOf: RawToken -> int, first: N, steps: seq<Step<N>>, k: nat, i: nat)
    requires i < k <= |steps|
    ensures Expected(precOf, first, steps, k)[2 * i + 1]
            == Operator(OperatorText(steps[i].op), precOf(steps[i].op))
  {
    if i < k - 1 {
      ExpectedOperatorAt(precOf, first, steps, k - 1, i);
    }
  }

  datatype BinaryError = MixedLogical(index: nat) | BadOperator(error: TokenError)

  datatype Climbed<N> = Climbed(tree: Tree<N>, consumed: nat)

  // ---------------------------------------------------------------------------
  // The shift/reduce stack. The source keeps operands and operator values in one
  // array [e0, op1, e1, op2, e2, ...] with a parallel array of precedences; here
  // the same stack is a list growing at the top, each entry an operator, its
  // precedence and the tree to its right.

  datatype Stack<N> = Base(tree: Tree<N>) | Push(below: Stack<N>, op: string, prec: int, tree: Tree<N>)

  /**
   * Stack invariant: precedences strictly increase upwards, every tree is
   * ordered and built from binary operators only, and each tree binds tightly
   * enough for the operators on both sides of it.
   */
  predicate StackInv<N>(s: Stack<N>) {
    match s
    case Base(t) => Ordered(t) && AllBinary(t)
    case Push(below, _, p, t) =>
      && StackInv(below) && Ordered(t) && AllBinary(t)
      && BindsRight(t, p) && BindsLeft(below.tree, p)
      && (below.Push? ==> below.prec < p)
  }

  /** The reading of the stack, bottom to top. */
  function Reading<N>(s: Stack<N>): seq<Item<N>> {
    match s
    case Base(t) => Yield(t)
    case Push(below, op, p, t) => Reading(below) + [Operator(op, p)] + Yield(t)
  }

  /** Every operator on the stack is a binary operator. */
  predicate StackBinary<N>(s: Stack<N>) {
    s.Base? || (s.op in BinaryOperators && StackBinary(s.below))
  }

  /** The number of operators on the stack. */
  function Depth<N>(s: Stack<N>): nat {
    if s.Base? then 0 else 1 + Depth(s.below)
  }

  /** One reduction: the top operator and the trees on either side of it become one tree. */
  function ReduceTop<N>(s: Stack<N>): (r: Result<Stack<N>, BinaryError>)
    requires s.Push?
    ensures r.Ok? <==> s.op in BinaryOperators
    ensures r.Err? ==> r.error == BadOperator(NotBinaryOperator(s.op))
    ensures r.Ok? ==> r.value.tree == Bin(s.op, s.prec, s.below.tree, s.tree)
    ensures r.Ok? ==> (r.value.Base? <==> s.below.Base?)
    ensures r.Ok? ==> Depth(r.value) == Depth(s) - 1
    ensures r.Ok? && r.value.Push? ==> r.value.below == s.below.below && r.value.op == s.below.op && r.value.prec == s.below.prec
  {
    match AsBinaryOperator(StrValue(s.op))
    case Err(e) => Err(BadOperator(e))
    case Ok(op) =>
      var node := Bin(op, s.prec, s.below.tree, s.tree);
      match s.below
      case Base(_) => Ok(Base(node))
      case Push(b, op2, p2, _) => Ok(Push(b, op2, p2, node))
  }

  /** A reduction keeps the stack invariant. */
  lemma {:induction false} ReduceKeepsInv<N>(s: Stack<N>)
    requires s.Push? && ReduceTop(s).Ok? && StackInv(s)
    ensures StackInv(ReduceTop(s).value)
  {
    assert StackInv(s.below);
    var node := Bin(s.op, s.prec, s.below.tree, s.tree);
    if s.below.Base? {
      assert ReduceTop(s).value == Base(node);
    } else {
      var b := s.below;
      assert ReduceTop(s).value == Push(b.below, b.op, b.prec, node);
    }
  }

  /** A reduction keeps the reading of the stack. */
  lemma {:induction false} ReduceKeepsReading<N>(s: Stack<N>)
    requires s.Push? && ReduceTop(s).Ok?
    ensures Reading(ReduceTop(s).value) == Reading(s)
  {
    var node := Bin(s.op, s.prec, s.below.tree, s.tree);
    assert Yield(node) == Yield(s.below.tree) + [Operator(s.op, s.prec)] + Yield(s.tree);
    if s.below.Push? {
      var b := s.below;
      assert ReduceTop(s).value == Push(b.below, b.op, b.prec, node);
      assert Reading(s) == Reading(b.below) + [Operator(b.op, b.prec)] + Yield(b.tree) + [Operator(s.op, s.prec)] + Yield(s.tree);
    }
  }

  /** A reduction keeps a binary-only stack binary-only. */
  lemma {:induction false} ReduceKeepsBinary<N>(s: Stack<N>)
    requires s.Push? && ReduceTop(s).Ok? && StackBinary(s)
    ensures StackBinary(ReduceTop(s).value)
  {
    if s.below.Push? {
      var b := s.below;
      assert StackBinary(b);
      assert ReduceTop(s).value == Push(b.below, b.op, b.prec, Bin(s.op, s.prec, b.tree, s.tree));
    }
  }

  /** Shifting an operator that binds more tightly than the top one, with its operand as a leaf. */
  lemma ShiftKeeps<N>(s: Stack<N>, op: string, p: int, operand: N)
    requires StackInv(s) && BindsLeft(s.tree, p) && (s.Push? ==> s.prec < p)
    ensures StackInv(Push(s, op, p, Leaf(operand)))
    ensures Reading(Push(s, op, p, Leaf(operand))) == Reading(s) + [Operator(op, p), Operand(operand)]
  {
  }

  /**
   * The reduce phase before a shift: reduce while the incoming operator binds no
   * more tightly than the top one. It fails only when it meets an operator the
   * narrowing rejects; otherwise the stack keeps its reading and invariant and the
   * incoming operator may be shifted.
   */
  method ReduceWhile<N>(s: Stack<N>, prec: int) returns (r: Result<Stack<N>, BinaryError>)
    requires StackInv(s) && BindsLeft(s.tree, prec)
    ensures StackBinary(s) ==> r.Ok?
    ensures r.Err? ==> r.error.BadOperator? && !StackBinary(s)
    ensures r.Ok? ==> StackInv(r.value) && BindsLeft(r.value.tree, prec) && (r.value.Push? ==> r.value.prec < prec)
    ensures r.Ok? ==> Reading(r.value) == Reading(s)
    ensures r.Ok? && StackBinary(s) ==> StackBinary(r.value)
  {
    var cur := s;
    while cur.Push? && prec <= cur.prec
      invariant StackInv(cur) && BindsLeft(cur.tree, prec)
      invariant Reading(cur) == Reading(s)
      invariant StackBinary(s) ==> StackBinary(cur)
      decreases Depth(cur)
    {
      var reduced := ReduceTop(cur);
      if reduced.Err? {
        return Err(reduced.error);
      }
      ReduceKeepsInv(cur);
      ReduceKeepsReading(cur);
      if StackBinary(cur) {
        ReduceKeepsBinary(cur);
      }
      cur := reduced.value;
    }
    return Ok(cur);
  }

  /**
   * The final reduce: collapse the stack top-down into one tree (the source's
   * right-to-left fold). It succeeds exactly when every operator on the stack is
   * a binary operator, and the tree reads as the stack did.
   */
  method ReduceAll<N>(s: Stack<N>) returns (r: Result<Tree<N>, BinaryError>)
    requires StackInv(s)
    ensures r.Ok? <==> StackBinary(s)
    ensures r.Err? ==> r.error.BadOperator?
    ensures r.Ok? ==> Ordered(r.value) && AllBinary(r.value)
    ensures r.Ok? ==> Yield(r.value) == Reading(s)
  {
    var cur := s;
    while cur.Push?
      invariant StackInv(cur)
      invariant Reading(cur) == Reading(s)
      invariant StackBinary(s) <==> StackBinary(cur)
      decreases Depth(cur)
    {
      var reduced := ReduceTop(cur);
      if reduced.Err? {
        return Err(reduced.error);
      }
      ReduceKeepsInv(cur);
      ReduceKeepsReading(cur);
      if StackBinary(cur) {
        ReduceKeepsBinary(cur);
      }
      cur := reduced.value;
    }
    return Ok(cur.tree);
  }

  // ---------------------------------------------------------------------------
  // The climbing loop.

  /** What the climbing loop knows about the stack after consuming steps [0, k). */
  ghost predicate Climbing<N>(precOf: RawToken -> int, first: N, steps: seq<Step<N>>, k: nat, s: Stack<N>)
    requires k <= |steps|
  {
    && s.Push? && s.tree.Leaf?
    && StackInv(s)
    && Reading(s) == Expected(precOf, first, steps, k)
    && (AllOperatorsBinary(steps, k) ==> StackBinary(s))
  }

  /**
   * One reduce-then-shift round for step k: reduce while its operator binds no
   * more tightly than the top one, then push the operator with its operand. It
   * fails only on an operator the narrowing rejects; otherwise the stack reads
   * as the first k + 1 steps and keeps its invariant with a leaf on top.
   */
  method Shift<N>(precOf: RawToken -> int, ghost first: N, steps: seq<Step<N>>, k: nat, s: Stack<N>)
    returns (r: Result<Stack<N>, BinaryError>)
    requires k < |steps| && Climbing(precOf, first, steps, k, s)
    ensures r.Ok? ==> Climbing(precOf, first, steps, k + 1, r.value)
    ensures r.Err? ==> r.error.BadOperator? && !AllOperatorsBinary(steps, k)
  {
    var op, prec, operand := OperatorText(steps[k].op), precOf(steps[k].op), steps[k].operand;
    var reduced := ReduceWhile(s, prec);
    if reduced.Err? {
      return Err(reduced.error);
    }
    ShiftKeeps(reduced.value, op, prec, operand);
    return Ok(Push(reduced.value, op, prec, Leaf(operand)));
  }

  /**
   * The climbing loop after the first operator: check the incoming operator
   * against the latches, reduce, shift, until a token binds at 0 or less. On
   * success every climbable step has been consumed without a conflict; a
   * failure is either the first conflict or an operator the narrowing rejects.
   */
  method ClimbLoop<N>(precOf: RawToken -> int, ghost first: N, steps: seq<Step<N>>, k0: nat,
                      s0: Stack<N>, allowAndOr0: bool, allowNullish0: bool)
    returns (r: Result<Stack<N>, BinaryError>)
    requires k0 <= ClimbLength(precOf, steps, 0)
    requires Climbing(precOf, first, steps, k0, s0) && NoConflictBefore(steps, k0)
    requires allowAndOr0 == !SawNullish(steps, k0) && allowNullish0 == !SawAndOr(steps, k0)
    ensures var n := ClimbLength(precOf, steps, 0);
            r.Ok? ==> Climbing(precOf, first, steps, n, r.value) && NoConflictBefore(steps, n)
    ensures var n := ClimbLength(precOf, steps, 0);
            r.Err? ==>
              || (r.error.MixedLogical? && r.error.index < n
                  && ConflictAt(steps, r.error.index) && NoConflictBefore(steps, r.error.index))
              || (r.error.BadOperator? && !AllOperatorsBinary(steps, n))
  {
    ghost var n := ClimbLength(precOf, steps, 0);
    var s, allowAndOr, allowNullish := s0, allowAndOr0, allowNullish0;
    var k := k0;
    while k < |steps| && precOf(steps[k].op) > 0
      invariant k0 <= k <= n
      invariant Climbing(precOf, first, steps, k, s)
      invariant NoConflictBefore(steps, k)
      invariant allowAndOr == !SawNullish(steps, k)
      invariant allowNullish == !SawAndOr(steps, k)
    {
      assert k < n;
      var op := OperatorText(steps[k].op);
      LatchStep(steps, k, allowAndOr, allowNullish);
      if (!allowAndOr && IsAndOr(op)) || (!allowNullish && op == "??") {
        return Err(MixedLogical(k));
      }
      if IsAndOr(op) {
        allowNullish := false;
      }
      if op == "??" {
        allowAndOr := false;
      }
      var shifted := Shift(precOf, first, steps, k, s);
      if shifted.Err? {
        BinaryPrefix(steps, k, n);
        return Err(shifted.error);
      }
      s := shifted.value;
      k := k + 1;
    }
    assert k == n;
    return Ok(s);
  }

  /**
   * The latches before step k say which operator families came earlier, so
   * they flag exactly a conflict at k, and updating them for step k's
   * operator gives the latches before step k + 1.
   */
  lemma LatchStep<N>(steps: seq<Step<N>>, k: nat, allowAndOr: bool, allowNullish: bool)
    requires k < |steps| && NoConflictBefore(steps, k)
    requires allowAndOr == !SawNullish(steps, k) && allowNullish == !SawAndOr(steps, k)
    ensures var op := OperatorText(steps[k].op);
            ConflictAt(steps, k) <==> (!allowAndOr && IsAndOr(op)) || (!allowNullish && op == "??")
    ensures var op := OperatorText(steps[k].op);
            !ConflictAt(steps, k) ==> NoConflictBefore(steps, k + 1)
    ensures var op := OperatorText(steps[k].op);
            && (allowAndOr && op != "??") == !SawNullish(steps, k + 1)
            && (allowNullish && !IsAndOr(op)) == !SawAndOr(steps, k + 1)
  {
  }

  /** A binary-only prefix stays binary-only when shortened. */
  lemma {:induction false} BinaryPrefix<N>(steps: seq<Step<N>>, k: nat, n: nat)
    requires k <= n <= |steps|
    ensures AllOperatorsBinary(steps, n) ==> AllOperatorsBinary(steps, k)
    decreases n - k
  {
    if k < n {
      BinaryPrefix(steps, k, n - 1);
    }
  }

  /** A conflict at j rules out a conflict-free prefix that contains it. */
  lemma {:induction false} NoConflictPrefix<N>(steps: seq<Step<N>>, j: nat, n: nat)
    requires j < n <= |steps|
    ensures NoConflictBefore(steps, n) ==> !ConflictAt(steps, j)
    decreases n - j
  {
    if j + 1 < n {
      NoConflictPrefix(steps, j, n - 1);
    }
  }

  /** A reading of binary operators only, laid out as the first k steps, has binary steps. */
  lemma {:induction false} ExpectedBinary<N>(precOf: RawToken -> int, first: N, steps: seq<Step<N>>, k: nat)
    requires k <= |steps|
    requires forall i :: 0 <= i < |Expected(precOf, first, steps, k)| && Expected(precOf, first, steps, k)[i].Operator?
               ==> Expected(precOf, first, steps, k)[i].op in BinaryOperators
    ensures AllOperatorsBinary(steps, k)
  {
    if k > 0 {
      var ys := Expected(precOf, first, steps, k);
      var prev := Expected(precOf, first, steps, k - 1);
      assert ys[2 * k - 1] == Operator(OperatorText(steps[k - 1].op), precOf(steps[k - 1].op));
      forall i | 0 <= i < |prev| && prev[i].Operator?
        ensures prev[i].op in BinaryOperators
      {
        assert prev[i] == ys[i];
      }
      ExpectedBinary(precOf, first, steps, k - 1);
    }
  }

  /**
   * Precedence climbing over `first` and the operator/operand steps after it,
   * with `precOf` the parser's binaryPrecedence. It consumes every step up to
   * the first token that binds at 0 or less, succeeds exactly when that prefix
   * neither mixes `??` with `&&`/`||` nor holds an operator the narrowing
   * rejects, and then returns the precedence-ordered tree that reads as the
   * consumed input (unique by OrderedTreeUnique). When every operator is a
   * binary one the only failure is the first `??`/`&&`/`||` conflict.
   */
  method ParseBinaryExpression<N>(precOf: RawToken -> int, first: N, steps: seq<Step<N>>)
    returns (r: Result<Climbed<N>, BinaryError>)
    ensures var n := ClimbLength(precOf, steps, 0);
            r.Ok? <==> NoConflictBefore(steps, n) && AllOperatorsBinary(steps, n)
    ensures r.Ok? ==> r.value.consumed == ClimbLength(precOf, steps, 0)
    ensures r.Ok? ==> Ordered(r.value.tree)
    ensures r.Ok? ==> Yield(r.value.tree) == Expected(precOf, first, steps, r.value.consumed)
    ensures var n := ClimbLength(precOf, steps, 0);
            r.Err? && AllOperatorsBinary(steps, n) ==>
              r.error.MixedLogical? && r.error.index < n
              && ConflictAt(steps, r.error.index) && NoConflictBefore(steps, r.error.index)
  {
    ghost var n := ClimbLength(precOf, steps, 0);
    if |steps| == 0 || precOf(steps[0].op) <= 0 {
      return Ok(Climbed(Leaf(first), 0));
    }
    // The first operator is shifted without a latch check or a reduce.
    var token := steps[0].op;
    var allowAndOr, allowNullish := true, true;
    if IsAndOr(OperatorText(token)) {
      allowNullish := false;
    }
    if OperatorText(token) == "??" {
      allowAndOr := false;
    }
    var s := Push(Base(Leaf(first)), OperatorText(token), precOf(token), Leaf(steps[0].operand));
    assert Expected(precOf, first, steps, 0) == [Operand(first)];
    assert Reading(Base(Leaf(first))) == [Operand(first)];
    assert Reading(s) == Expected(precOf, first, steps, 1);
    assert StackInv(s);
    assert AllOperatorsBinary(steps, 1) ==> StackBinary(s);
    assert Climbing(precOf, first, steps, 1, s);
    assert !SawNullish(steps, 0) && !SawAndOr(steps, 0);
    assert !ConflictAt(steps, 0);
    assert NoConflictBefore(steps, 1);
    assert 1 <= n;
    var climbed := ClimbLoop(precOf, first, steps, 1, s, allowAndOr, allowNullish);
    if climbed.Err? {
      if climbed.error.MixedLogical? {
        NoConflictPrefix(steps, climbed.error.index, n);
      }
      return Err(climbed.error);
    }
    var tree := ReduceAll(climbed.value);
    if tree.Err? {
      return Err(tree.error);
    }
    AllBinaryYield(tree.value);
    ExpectedBinary(precOf, first, steps, n);
    return Ok(Climbed(tree.value, |Yield(tree.value)| / 2));
  }

  // ---------------------------------------------------------------------------
  // The default table.

  /** Every operator the default table ranks above 0 is one the narrowing accepts. */
  lemma DefaultPositiveAreBinary()
    ensures forall op :: op in DefaultTable && DefaultTable[op] > 0 ==> op in BinaryOperators
  {
  }

  /**
   * Under the default table, climbing only ever consumes binary operators, so
   * the only way ParseBinaryExpression can fail is a `??`/`&&`/`||` conflict.
   */
  lemma {:induction false} DefaultTableClimbsBinary<N>(precOf: RawToken -> int, allowIn: bool, steps: seq<Step<N>>, k: nat)
    requires forall t :: precOf(t) == BinaryPrecedence(DefaultTable, allowIn, t)
    requires k <= ClimbLength(precOf, steps, 0)
    ensures AllOperatorsBinary(steps, k)
  {
    if k > 0 {
      DefaultTableClimbsBinary(precOf, allowIn, steps, k - 1);
      var token := steps[k - 1].op;
      assert precOf(token) > 0;
      DefaultPositiveAreBinary();
    }
  }

  // ---------------------------------------------------------------------------
  // Worked readings. Each fixes the one ordered tree a token sequence admits,
  // which by ParseBinaryExpression's contract is the tree it returns.

  /** `a * b << c` groups as `(a * b) << c`: `*` (15) binds tighter than `<<` (13). */
  lemma MultiplyBeforeShift<N>(t: Tree<N>, a: N, b: N, c: N)
    requires Ordered(t)
    requires Yield(t) == [Operand(a), Operator("*", DefaultTable["*"]), Operand(b), Operator("<<", DefaultTable["<<"]), Operand(c)]
    ensures t == Bin("<<", 13, Bin("*", 15, Leaf(a), Leaf(b)), Leaf(c))
  {
    var u := Bin("<<", 13, Bin("*", 15, Leaf(a), Leaf(b)), Leaf(c));
    assert DefaultTable["*"] == 15 && DefaultTable["<<"] == 13;
    assert Yield(u.left) == [Operand(a), Operator("*", 15), Operand(b)];
    assert Yield(u) == Yield(t);
    OrderedTreeUnique(t, u);
  }

  /** `a << b * c` groups as `a << (b * c)`. */
  lemma ShiftAfterMultiply<N>(t: Tree<N>, a: N, b: N, c: N)
    requires Ordered(t)
    requires Yield(t) == [Operand(a), Operator("<<", DefaultTable["<<"]), Operand(b), Operator("*", DefaultTable["*"]), Operand(c)]
    ensures t == Bin("<<", 13, Leaf(a), Bin("*", 15, Leaf(b), Leaf(c)))
  {
    var u := Bin("<<", 13, Leaf(a), Bin("*", 15, Leaf(b), Leaf(c)));
    assert DefaultTable["*"] == 15 && DefaultTable["<<"] == 13;
    assert Yield(u.right) == [Operand(b), Operator("*", 15), Operand(c)];
    assert Yield(u) == Yield(t);
    OrderedTreeUnique(t, u);
  }

  /** Equal precedences associate to the left: `a - b + c` is `(a - b) + c`. */
  lemma EqualPrecedenceAssociatesLeft<N>(t: Tree<N>, a: N, b: N, c: N)
    requires Ordered(t)
    requires Yield(t) == [Operand(a), Operator("-", DefaultTable["-"]), Operand(b), Operator("+", DefaultTable["+"]), Operand(c)]
    ensures t == Bin("+", 14, Bin("-", 14, Leaf(a), Leaf(b)), Leaf(c))
  {
    var u := Bin("+", 14, Bin("-", 14, Leaf(a), Leaf(b)), Leaf(c));
    assert DefaultTable["-"] == 14 && DefaultTable["+"] == 14;
    assert Yield(u.left) == [Operand(a), Operator("-", 14), Operand(b)];
    assert Yield(u) == Yield(t);
    OrderedTreeUnique(t, u);
  }

  /** An override that ranks `<<` above `*` regroups `a * b << c` as `a * (b << c)`. */
  lemma OverrideRegroups<N>(f: Override, t: Tree<N>, a: N, b: N, c: N)
    requires f("<<") == Some(16) && f("*").None?
    requires Ordered(t)
    requires Yield(t) == [Operand(a), Operator("*", BuildTable(Some(f))["*"]), Operand(b),
                          Operator("<<", BuildTable(Some(f))["<<"]), Operand(c)]
    ensures t == Bin("*", 15, Leaf(a), Bin("<<", 16, Leaf(b), Leaf(c)))
  {
    var u := Bin("*", 15, Leaf(a), Bin("<<", 16, Leaf(b), Leaf(c)));
    assert "*" in DefaultTable && "<<" in DefaultTable;
    assert BuildTable(Some(f))["*"] == 15 && BuildTable(Some(f))["<<"] == 16;
    assert Yield(u.right) == [Operand(b), Operator("<<", 16), Operand(c)];
    assert Yield(u) == Yield(t);
    OrderedTreeUnique(t, u);
  }

  /** `a ?? b || c` conflicts at its second operator; `a ?? b ?? c` does not. */
  lemma NullishMixing<N>(a: N, b: N, c: N, line: nat, pos: nat)
    ensures var steps := [Step(RawToken(Punctuator, StrValue("??"), line, pos, pos + 2), b),
                          Step(RawToken(Punctuator, StrValue("||"), line, pos + 5, pos + 7), c)];
            !NoConflictBefore(steps, 2) && NoConflictBefore(steps, 1) && ConflictAt(steps, 1)
    ensures var steps := [Step(RawToken(Punctuator, StrValue("??"), line, pos, pos + 2), b),
                          Step(RawToken(Punctuator, StrValue("??"), line, pos + 5, pos + 7), c)];
            NoConflictBefore(steps, 2)
  {
    var mixed := [Step(RawToken(Punctuator, StrValue("??"), line, pos, pos + 2), b),
                  Step(RawToken(Punctuator, StrValue("||"), line, pos + 5, pos + 7), c)];
    assert SawNullish(mixed, 1);
    var same := [Step(RawToken(Punctuator, StrValue("??"), line, pos, pos + 2), b),
                 Step(RawToken(Punctuator, StrValue("??"), line, pos + 5, pos + 7), c)];
    assert !SawAndOr(same, 1);
  }
}
