/** Token kinds and the total narrowing functions over raw token values (src/token.ts). */
module Tokens {
  import opened Wrappers

  /** The twelve kinds of token the scanner produces. */
  datatype TokenType =
    | BooleanLiteral | EOF | Identifier | Keyword | NullLiteral | NumericLiteral
    | Punctuator | StringLiteral | RegularExpression | Template | JSXIdentifier | JSXText

  /** The display name used when tokens are exported and in error messages. */
  function TokenName(t: TokenType): string {
    match t
    case BooleanLiteral => "Boolean"
    case EOF => "<end>"
    case Identifier => "Identifier"
    case Keyword => "Keyword"
    case NullLiteral => "Null"
    case NumericLiteral => "Numeric"
    case Punctuator => "Punctuator"
    case StringLiteral => "String"
    case RegularExpression => "RegularExpression"
    case Template => "Template"
    case JSXIdentifier => "JSXIdentifier"
    case JSXText => "JSXText"
  }

  /** No two token kinds share a display name, so the name identifies the kind. */
  lemma TokenNameInjective(a: TokenType, b: TokenType)
    ensures TokenName(a) == TokenName(b) <==> a == b
  {
    if a != b {
      assert TokenName(a) != TokenName(b) by {
        match a
        case BooleanLiteral =>
        case EOF => assert TokenName(a)[0] == '<';
        case Identifier =>
        case Keyword =>
        case NullLiteral =>
        case NumericLiteral =>
        case Punctuator =>
        case StringLiteral =>
        case RegularExpression =>
        case Template =>
        case JSXIdentifier =>
        case JSXText =>
      }
    }
  }

  /** Any host value, as far as the narrowing functions can tell them apart. */
  datatype HostValue =
    | HostString(s: string)
    | HostNumber(n: int)
    | HostNull
    | HostUndefined
    | HostBoolean(b: bool)
    | HostObject

  /** The value carried by a raw token: a string, a number or null. */
  datatype RawValue = StrValue(s: string) | NumValue(n: int) | NullValue

  /** What the narrowing functions throw. */
  datatype TokenError =
    | NotRawTokenValue
    | NotString
    | NotUnaryOperator(found: string)
    | NotBinaryOperator(found: string)

  predicate IsRawTokenValue(x: HostValue) {
    x.HostString? || x.HostNumber? || x.HostNull?
  }

  /** Narrows a host value to a raw token value, throwing for anything else. */
  function AssertRawTokenValue(x: HostValue): (r: Result<RawValue, TokenError>)
    ensures r.Ok? <==> IsRawTokenValue(x)
    ensures r == Err(NotRawTokenValue) <==> !IsRawTokenValue(x)
    ensures x.HostString? ==> r == Ok(StrValue(x.s))
    ensures x.HostNumber? ==> r == Ok(NumValue(x.n))
    ensures x.HostNull? ==> r == Ok(NullValue)
  {
    match x
    case HostString(s) => Ok(StrValue(s))
    case HostNumber(n) => Ok(NumValue(n))
    case HostNull => Ok(NullValue)
    case _ => Err(NotRawTokenValue)
  }

  /** The identity on strings; numbers and null are rejected. */
  function AsString(v: RawValue): (r: Result<string, TokenError>)
    ensures r.Ok? <==> v.StrValue?
    ensures r.Ok? ==> r.value == v.s
    ensures r.Err? ==> r.error == NotString
  {
    match v
    case StrValue(s) => Ok(s)
    case _ => Err(NotString)
  }

  /** The seven prefix operators a UnaryExpression may carry. */
  const UnaryOperators: set<string> := {"+", "-", "~", "!", "delete", "typeof", "void"}

  /** The twenty-five operators a BinaryExpression may carry. */
  const BinaryOperators: set<string> := {
    "+", "-", "*", "/", "|", "^", "**", "&", "<", ">", "<=", ">=", "===", "!==", "==", "!=",
    "<<", ">>", "||", "&&", "??", ">>>", "%", "in", "instanceof"
  }

  /** Narrows a raw value to a unary operator. */
  function AsUnaryOperator(v: RawValue): (r: Result<string, TokenError>)
    ensures r.Ok? <==> v.StrValue? && v.s in UnaryOperators
    ensures r.Ok? ==> r.value == v.s
    ensures r.Err? && v.StrValue? ==> r.error == NotUnaryOperator(v.s)
    ensures !v.StrValue? ==> r == Err(NotString)
  {
    var op :- AsString(v);
    match op
    case "+" => Ok(op)
    case "-" => Ok(op)
    case "~" => Ok(op)
    case "!" => Ok(op)
    case "delete" => Ok(op)
    case "typeof" => Ok(op)
    case "void" => Ok(op)
    case _ => Err(NotUnaryOperator(op))
  }

  /** Narrows a raw value to a binary operator. */
  function AsBinaryOperator(v: RawValue): (r: Result<string, TokenError>)
    ensures r.Ok? <==> v.StrValue? && v.s in BinaryOperators
    ensures r.Ok? ==> r.value == v.s
    ensures r.Err? && v.StrValue? ==> r.error == NotBinaryOperator(v.s)
    ensures !v.StrValue? ==> r == Err(NotString)
  {
    var op :- AsString(v);
    match op
    case "+" => Ok(op)
    case "-" => Ok(op)
    case "*" => Ok(op)
    case "/" => Ok(op)
    case "|" => Ok(op)
    case "^" => Ok(op)
    case "**" => Ok(op)
    case "&" => Ok(op)
    case "<" => Ok(op)
    case ">" => Ok(op)
    case "<=" => Ok(op)
    case ">=" => Ok(op)
    case "===" => Ok(op)
    case "!==" => Ok(op)
    case "==" => Ok(op)
    case "!=" => Ok(op)
    case "<<" => Ok(op)
    case ">>" => Ok(op)
    case "||" => Ok(op)
    case "&&" => Ok(op)
    case "??" => Ok(op)
    case ">>>" => Ok(op)
    case "%" => Ok(op)
    case "in" => Ok(op)
    case "instanceof" => Ok(op)
    case _ => Err(NotBinaryOperator(op))
  }

  /** A raw token with the fields the modelled components read. */
  datatype RawToken = RawToken(kind: TokenType, value: RawValue, lineNumber: nat, start: nat, end: nat)
}
