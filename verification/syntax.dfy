/**
 * The node type tags (the source's `Syntax` table of ESTree type strings).
 * Tags are compared by the source's type predicates; several node classes
 * share one tag.
 */
module Syntax {
  datatype Kind =
    | ArrayExpression
    | ArrayPattern
    | ArrowFunctionExpression
    | ArrowParameterPlaceHolder
    | AssignmentExpression
    | AssignmentPattern
    | AwaitExpression
    | BinaryExpression
    | BlockStatement
    | BreakStatement
    | CallExpression
    | CatchClause
    | ChainExpression
    | ClassBody
    | ClassDeclaration
    | ClassExpression
    | ConditionalExpression
    | ContinueStatement
    | DebuggerStatement
    | DoWhileStatement
    | EmptyStatement
    | ExportAllDeclaration
    | ExportDefaultDeclaration
    | ExportNamedDeclaration
    | ExportSpecifier
    | ExpressionStatement
    | ForInStatement
    | ForOfStatement
    | ForStatement
    | FunctionDeclaration
    | FunctionExpression
    | Identifier
    | IfStatement
    | Import
    | ImportDeclaration
    | ImportDefaultSpecifier
    | ImportNamespaceSpecifier
    | ImportSpecifier
    | LabeledStatement
    | Literal
    | LogicalExpression
    | MemberExpression
    | MetaProperty
    | MethodDefinition
    | NewExpression
    | ObjectExpression
    | ObjectPattern
    | Program
    | Property
    | RestElement
    | ReturnStatement
    | SequenceExpression
    | SpreadElement
    | Super
    | SwitchCase
    | SwitchStatement
    | TaggedTemplateExpression
    | TemplateElement
    | TemplateLiteral
    | ThisExpression
    | ThrowStatement
    | TryStatement
    | UnaryExpression
    | UpdateExpression
    | VariableDeclaration
    | VariableDeclarator
    | WhileStatement
    | WithStatement
    | YieldExpression
}
