/**
 * The syntax tree (src/nodes.ts) as one immutable tagged union.
 *
 * Each class of the source becomes a constructor. Classes that share an ESTree
 * `type` string in the source stay distinguishable here through a flag
 * (`computed` for member expressions, `async` for functions) or through the
 * operator (binary versus logical expressions), and `TypeOf` computes the
 * string the source stores in `type`.
 */
module Nodes {
  import opened Wrappers
  import Syntax

  datatype SourceType = ModuleCode | ScriptCode

  datatype PropertyKind = Init | Get | Set

  /** Literal payloads; numbers and regular expressions are kept abstract. */
  datatype LiteralValue = LitString(s: string) | LitNumber(n: int) | LitBoolean(b: bool) | LitNull

  datatype Node =
    | ArrayExpression(elements: seq<Option<Node>>)
    | ArrayPattern(elements: seq<Option<Node>>)
    | ArrowFunctionExpression(params: seq<Node>, body: Node, isExpression: bool, async: bool)
    | ArrowParameterPlaceHolder(params: seq<Node>, async: bool)
    | AssignmentExpression(operator: string, left: Node, right: Node)
    | AssignmentPattern(left: Node, right: Node)
    | AwaitExpression(argument: Node)
    | BinaryExpression(operator: string, left: Node, right: Node)
    | BlockStatement(statements: seq<Node>)
    | BreakStatement(target: Option<Node>)
    | CallExpression(callee: Node, arguments: seq<Node>, optional: bool)
    | CatchClause(param: Option<Node>, body: Node)
    | ChainExpression(expression: Node)
    | ClassBody(members: seq<Node>)
    | ClassDeclaration(id: Option<Node>, superClass: Option<Node>, classBody: Node)
    | ClassExpression(id: Option<Node>, superClass: Option<Node>, classBody: Node)
    | MemberExpression(computed: bool, obj: Node, property: Node, optional: bool)
    | ConditionalExpression(test: Node, consequent: Node, alternate: Node)
    | ContinueStatement(target: Option<Node>)
    | DebuggerStatement
    | Directive(expression: Node, directive: string)
    | DoWhileStatement(body: Node, test: Node)
    | EmptyStatement
    | ExportAllDeclaration(source: Node)
    | ExportDefaultDeclaration(declaration: Node)
    | ExportNamedDeclaration(namedDeclaration: Option<Node>, specifiers: seq<Node>, namedSource: Option<Node>)
    | ExportSpecifier(local: Node, exported: Node)
    | ExpressionStatement(expression: Node)
    | ForInStatement(left: Node, right: Node, body: Node)
    | ForOfStatement(left: Node, right: Node, body: Node, await: bool)
    | ForStatement(init: Option<Node>, forTest: Option<Node>, update: Option<Node>, body: Node)
    | FunctionDeclaration(id: Option<Node>, params: seq<Node>, body: Node, generator: bool, async: bool)
    | FunctionExpression(id: Option<Node>, params: seq<Node>, body: Node, generator: bool, async: bool)
    | Identifier(name: string)
    | IfStatement(test: Node, consequent: Node, alternateStatement: Option<Node>)
    | Import
    | ImportDeclaration(specifiers: seq<Node>, source: Node)
    | ImportDefaultSpecifier(local: Node)
    | ImportNamespaceSpecifier(local: Node)
    | ImportSpecifier(local: Node, imported: Node)
    | LabeledStatement(labelName: Node, body: Node)
    | Literal(value: LiteralValue, raw: string)
    | MetaProperty(meta: Node, property: Node)
    | MethodDefinition(methodKey: Option<Node>, computed: bool, methodValue: Option<Node>, kind: string, isStatic: bool)
    | NewExpression(callee: Node, arguments: seq<Node>)
    | ObjectExpression(properties: seq<Node>)
    | ObjectPattern(properties: seq<Node>)
    | Program(programBody: seq<Node>, sourceType: SourceType)
    | Property(propertyKind: PropertyKind, key: Node, computed: bool, propertyValue: Node, isMethod: bool, shorthand: bool)
    | RegexLiteral(pattern: string, flags: string, raw: string)
    | RestElement(argument: Node)
    | ReturnStatement(returned: Option<Node>)
    | SequenceExpression(expressions: seq<Node>)
    | SpreadElement(argument: Node)
    | Super
    | SwitchCase(caseTest: Option<Node>, consequents: seq<Node>)
    | SwitchStatement(discriminant: Node, cases: seq<Node>)
    | TaggedTemplateExpression(tag: Node, quasi: Node)
    | TemplateElement(cooked: Option<string>, raw: string, tail: bool)
    | TemplateLiteral(quasis: seq<Node>, expressions: seq<Node>)
    | ThisExpression
    | ThrowStatement(argument: Node)
    | TryStatement(block: Node, handler: Option<Node>, finalizer: Option<Node>)
    | UnaryExpression(operator: string, argument: Node, prefix: bool)
    | UpdateExpression(operator: string, argument: Node, prefix: bool)
    | VariableDeclaration(declarations: seq<Node>, kind: string)
    | VariableDeclarator(binding: Node, init: Option<Node>)
    | WhileStatement(test: Node, body: Node)
    | WithStatement(obj: Node, body: Node)
    | YieldExpression(yielded: Option<Node>, delegate: bool)

  /** The operators whose BinaryExpression is reported as a LogicalExpression. */
  const LogicalOperators: set<string> := {"||", "&&", "??"}

  /** The `type` tag the source stores on each node. */
  function TypeOf(n: Node): Syntax.Kind {
    match n
    case ArrayExpression(_) => Syntax.ArrayExpression
    case ArrayPattern(_) => Syntax.ArrayPattern
    case ArrowFunctionExpression(_, _, _, _) => Syntax.ArrowFunctionExpression
    case ArrowParameterPlaceHolder(_, _) => Syntax.ArrowParameterPlaceHolder
    case AssignmentExpression(_, _, _) => Syntax.AssignmentExpression
    case AssignmentPattern(_, _) => Syntax.AssignmentPattern
    case AwaitExpression(_) => Syntax.AwaitExpression
    case BinaryExpression(op, _, _) =>
      if op == "||" || op == "&&" || op == "??" then Syntax.LogicalExpression else Syntax.BinaryExpression
    case BlockStatement(_) => Syntax.BlockStatement
    case BreakStatement(_) => Syntax.BreakStatement
    case CallExpression(_, _, _) => Syntax.CallExpression
    case CatchClause(_, _) => Syntax.CatchClause
    case ChainExpression(_) => Syntax.ChainExpression
    case ClassBody(_) => Syntax.ClassBody
    case ClassDeclaration(_, _, _) => Syntax.ClassDeclaration
    case ClassExpression(_, _, _) => Syntax.ClassExpression
    case MemberExpression(_, _, _, _) => Syntax.MemberExpression
    case ConditionalExpression(_, _, _) => Syntax.ConditionalExpression
    case ContinueStatement(_) => Syntax.ContinueStatement
    case DebuggerStatement => Syntax.DebuggerStatement
    case Directive(_, _) => Syntax.ExpressionStatement
    case DoWhileStatement(_, _) => Syntax.DoWhileStatement
    case EmptyStatement => Syntax.EmptyStatement
    case ExportAllDeclaration(_) => Syntax.ExportAllDeclaration
    case ExportDefaultDeclaration(_) => Syntax.ExportDefaultDeclaration
    case ExportNamedDeclaration(_, _, _) => Syntax.ExportNamedDeclaration
    case ExportSpecifier(_, _) => Syntax.ExportSpecifier
    case ExpressionStatement(_) => Syntax.ExpressionStatement
    case ForInStatement(_, _, _) => Syntax.ForInStatement
    case ForOfStatement(_, _, _, _) => Syntax.ForOfStatement
    case ForStatement(_, _, _, _) => Syntax.ForStatement
    case FunctionDeclaration(_, _, _, _, _) => Syntax.FunctionDeclaration
    case FunctionExpression(_, _, _, _, _) => Syntax.FunctionExpression
    case Identifier(_) => Syntax.Identifier
    case IfStatement(_, _, _) => Syntax.IfStatement
    case Import => Syntax.Import
    case ImportDeclaration(_, _) => Syntax.ImportDeclaration
    case ImportDefaultSpecifier(_) => Syntax.ImportDefaultSpecifier
    case ImportNamespaceSpecifier(_) => Syntax.ImportNamespaceSpecifier
    case ImportSpecifier(_, _) => Syntax.ImportSpecifier
    case LabeledStatement(_, _) => Syntax.LabeledStatement
    case Literal(_, _) => Syntax.Literal
    case MetaProperty(_, _) => Syntax.MetaProperty
    case MethodDefinition(_, _, _, _, _) => Syntax.MethodDefinition
    case NewExpression(_, _) => Syntax.NewExpression
    case ObjectExpression(_) => Syntax.ObjectExpression
    case ObjectPattern(_) => Syntax.ObjectPattern
    case Program(_, _) => Syntax.Program
    case Property(_, _, _, _, _, _) => Syntax.Property
    case RegexLiteral(_, _, _) => Syntax.Literal
    case RestElement(_) => Syntax.RestElement
    case ReturnStatement(_) => Syntax.ReturnStatement
    case SequenceExpression(_) => Syntax.SequenceExpression
    case SpreadElement(_) => Syntax.SpreadElement
    case Super => Syntax.Super
    case SwitchCase(_, _) => Syntax.SwitchCase
    case SwitchStatement(_, _) => Syntax.SwitchStatement
    case TaggedTemplateExpression(_, _) => Syntax.TaggedTemplateExpression
    case TemplateElement(_, _, _) => Syntax.TemplateElement
    case TemplateLiteral(_, _) => Syntax.TemplateLiteral
    case ThisExpression => Syntax.ThisExpression
    case ThrowStatement(_) => Syntax.ThrowStatement
    case TryStatement(_, _, _) => Syntax.TryStatement
    case UnaryExpression(_, _, _) => Syntax.UnaryExpression
    case UpdateExpression(_, _, _) => Syntax.UpdateExpression
    case VariableDeclaration(_, _) => Syntax.VariableDeclaration
    case VariableDeclarator(_, _) => Syntax.VariableDeclarator
    case WhileStatement(_, _) => Syntax.WhileStatement
    case WithStatement(_, _) => Syntax.WithStatement
    case YieldExpression(_, _) => Syntax.YieldExpression
  }

  /** The BinaryExpression class tags `||`, `&&` and `??` as logical and stores its fields unchanged. */
  lemma BinaryExpressionTag(op: string, left: Node, right: Node)
    ensures TypeOf(BinaryExpression(op, left, right)) == Syntax.LogicalExpression <==> op in LogicalOperators
    ensures TypeOf(BinaryExpression(op, left, right)) == Syntax.BinaryExpression <==> op !in LogicalOperators
  {
  }

  /** The UnaryExpression class always records a prefix operator. */
  function NewUnaryExpression(op: string, argument: Node): (n: Node)
    ensures n.UnaryExpression? && n.prefix
    ensures n.operator == op && n.argument == argument
    ensures TypeOf(n) == Syntax.UnaryExpression
  {
    UnaryExpression(op, argument, true)
  }

  /** The UpdateExpression class records `prefix` as given. */
  function NewUpdateExpression(op: string, argument: Node, prefix: bool): (n: Node)
    ensures n.UpdateExpression? && n.prefix == prefix
    ensures n.operator == op && n.argument == argument
    ensures TypeOf(n) == Syntax.UpdateExpression
  {
    UpdateExpression(op, argument, prefix)
  }

  /** The Module and Script classes: both are a Program, told apart by `sourceType`. */
  function NewModule(body: seq<Node>): (n: Node)
    ensures TypeOf(n) == Syntax.Program && IsProgram(n) && IsModule(n) && !IsScript(n)
    ensures n.programBody == body
  {
    Program(body, ModuleCode)
  }

  function NewScript(body: seq<Node>): (n: Node)
    ensures TypeOf(n) == Syntax.Program && IsProgram(n) && IsScript(n) && !IsModule(n)
    ensures n.programBody == body
  {
    Program(body, ScriptCode)
  }

  predicate IsModule(n: Node) {
    n.Program? && n.sourceType == ModuleCode
  }

  predicate IsScript(n: Node) {
    n.Program? && n.sourceType == ScriptCode
  }

  predicate IsProgram(n: Node) {
    IsModule(n) || IsScript(n)
  }

  // Type predicates: each compares the node's `type` string, as the source does.

  predicate IsIdentifier(n: Node) { TypeOf(n) == Syntax.Identifier }
  predicate IsArrayExpression(n: Node) { TypeOf(n) == Syntax.ArrayExpression }
  predicate IsArrayPattern(n: Node) { TypeOf(n) == Syntax.ArrayPattern }
  predicate IsObjectExpression(n: Node) { TypeOf(n) == Syntax.ObjectExpression }
  predicate IsObjectPattern(n: Node) { TypeOf(n) == Syntax.ObjectPattern }
  predicate IsAssignmentExpression(n: Node) { TypeOf(n) == Syntax.AssignmentExpression }
  predicate IsAssignmentPattern(n: Node) { TypeOf(n) == Syntax.AssignmentPattern }
  predicate IsRestElement(n: Node) { TypeOf(n) == Syntax.RestElement }
  predicate IsSpreadElement(n: Node) { TypeOf(n) == Syntax.SpreadElement }
  predicate IsBlockStatement(n: Node) { TypeOf(n) == Syntax.BlockStatement }

  predicate IsComputedMemberExpression(n: Node) {
    TypeOf(n) == Syntax.MemberExpression && n.computed
  }

  predicate IsStaticMemberExpression(n: Node) {
    TypeOf(n) == Syntax.MemberExpression && !n.computed
  }

  predicate IsMemberExpression(n: Node) {
    IsComputedMemberExpression(n) || IsStaticMemberExpression(n)
  }

  /** Computed and static member expressions share one tag and split it between them. */
  lemma MemberExpressionSplit(n: Node)
    ensures !(IsComputedMemberExpression(n) && IsStaticMemberExpression(n))
    ensures IsMemberExpression(n) <==> TypeOf(n) == Syntax.MemberExpression
    ensures IsMemberExpression(n) <==> n.MemberExpression?
    ensures IsComputedMemberExpression(n) <==> n.MemberExpression? && n.computed
  {
  }

  /** Each type predicate the reinterpretation and parameter checks use holds of exactly one constructor. */
  lemma TypePredicatesMatchConstructors(n: Node)
    ensures IsIdentifier(n) <==> n.Identifier?
    ensures IsArrayExpression(n) <==> n.ArrayExpression?
    ensures IsArrayPattern(n) <==> n.ArrayPattern?
    ensures IsObjectExpression(n) <==> n.ObjectExpression?
    ensures IsObjectPattern(n) <==> n.ObjectPattern?
    ensures IsAssignmentExpression(n) <==> n.AssignmentExpression?
    ensures IsAssignmentPattern(n) <==> n.AssignmentPattern?
    ensures IsRestElement(n) <==> n.RestElement?
    ensures IsSpreadElement(n) <==> n.SpreadElement?
    ensures IsBlockStatement(n) <==> n.BlockStatement?
  {
    IdentifierTag(n);
    ArrayExpressionTag(n);
    ArrayPatternTag(n);
    ObjectExpressionTag(n);
    ObjectPatternTag(n);
    AssignmentExpressionTag(n);
    AssignmentPatternTag(n);
    RestElementTag(n);
    SpreadElementTag(n);
    BlockStatementTag(n);
  }

  lemma IdentifierTag(n: Node)
    ensures IsIdentifier(n) <==> n.Identifier?
  {
  }

  lemma ArrayExpressionTag(n: Node)
    ensures IsArrayExpression(n) <==> n.ArrayExpression?
  {
  }

  lemma ArrayPatternTag(n: Node)
    ensures IsArrayPattern(n) <==> n.ArrayPattern?
  {
  }

  lemma ObjectExpressionTag(n: Node)
    ensures IsObjectExpression(n) <==> n.ObjectExpression?
  {
  }

  lemma ObjectPatternTag(n: Node)
    ensures IsObjectPattern(n) <==> n.ObjectPattern?
  {
  }

  lemma AssignmentExpressionTag(n: Node)
    ensures IsAssignmentExpression(n) <==> n.AssignmentExpression?
  {
  }

  lemma AssignmentPatternTag(n: Node)
    ensures IsAssignmentPattern(n) <==> n.AssignmentPattern?
  {
  }

  lemma RestElementTag(n: Node)
    ensures IsRestElement(n) <==> n.RestElement?
  {
  }

  lemma SpreadElementTag(n: Node)
    ensures IsSpreadElement(n) <==> n.SpreadElement?
  {
  }

  lemma BlockStatementTag(n: Node)
    ensures IsBlockStatement(n) <==> n.BlockStatement?
  {
  }

  /** Nodes accepted where a function parameter is expected (src/nodes.ts:24-26). */
  predicate IsFunctionParameter(n: Node) {
    IsArrayPattern(n) || IsAssignmentPattern(n) || IsIdentifier(n) || IsObjectExpression(n)
    || IsObjectPattern(n) || IsRestElement(n) || IsSpreadElement(n)
  }

  datatype NodeError = NotFunctionParameter(kind: Syntax.Kind) | NotRestElementArgument(kind: Syntax.Kind)

  /** Index of the first node at or after `from` that is not a function parameter, or |nodes|. */
  function FirstNonParameter(nodes: seq<Node>, from: nat): (k: nat)
    requires from <= |nodes|
    ensures from <= k <= |nodes|
    ensures forall i :: from <= i < k ==> IsFunctionParameter(nodes[i])
    ensures k < |nodes| ==> !IsFunctionParameter(nodes[k])
    decreases |nodes| - from
  {
    if from == |nodes| || !IsFunctionParameter(nodes[from]) then from
    else FirstNonParameter(nodes, from + 1)
  }

  /** Returns the list unchanged when every element is a parameter, else fails on the first one that is not. */
  function AssertFunctionParameters(nodes: seq<Node>): (r: Result<seq<Node>, NodeError>)
    ensures r.Ok? <==> forall i :: 0 <= i < |nodes| ==> IsFunctionParameter(nodes[i])
    ensures r.Ok? ==> r.value == nodes
    ensures r.Err? ==> exists k :: 0 <= k < |nodes| && !IsFunctionParameter(nodes[k])
                                && (forall i :: 0 <= i < k ==> IsFunctionParameter(nodes[i]))
                                && r.error == NotFunctionParameter(TypeOf(nodes[k]))
  {
    var k := FirstNonParameter(nodes, 0);
    if k == |nodes| then Ok(nodes) else Err(NotFunctionParameter(TypeOf(nodes[k])))
  }

  /** Nodes accepted as the argument of a RestElement (src/nodes.ts:796-798). */
  predicate IsRestElementArgument(n: Node) {
    IsArrayPattern(n) || IsAssignmentPattern(n) || IsIdentifier(n) || IsMemberExpression(n) || IsObjectPattern(n)
  }

  function AssertRestElementArgument(n: Node): (r: Result<Node, NodeError>)
    ensures r.Ok? <==> n.ArrayPattern? || n.AssignmentPattern? || n.Identifier? || n.MemberExpression? || n.ObjectPattern?
    ensures r.Ok? ==> r.value == n
    ensures r.Err? ==> r.error == NotRestElementArgument(TypeOf(n))
  {
    TypePredicatesMatchConstructors(n);
    MemberExpressionSplit(n);
    if IsRestElementArgument(n) then Ok(n) else Err(NotRestElementArgument(TypeOf(n)))
  }

  /** The function-parameter kinds, stated over constructors. */
  lemma FunctionParameterKinds(n: Node)
    ensures IsFunctionParameter(n) <==>
              n.ArrayPattern? || n.AssignmentPattern? || n.Identifier? || n.ObjectExpression?
              || n.ObjectPattern? || n.RestElement? || n.SpreadElement?
  {
    TypePredicatesMatchConstructors(n);
  }
}
