/**
 * JSX element names and their qualified string form
 * (src/jsx-parser.ts: getQualifiedElementName).
 *
 * A closing tag is matched against its opening tag by comparing qualified
 * names as strings. The names the JSX parser builds (an identifier, `ns:name`,
 * or a left-nested member chain `a.b.c`) can be read back from that string,
 * so comparing strings is comparing names.
 */
module JsxNames {
  import opened Wrappers

  datatype ElementName =
    | JSXIdentifier(name: string)
    | JSXNamespacedName(namespace: ElementName, local: ElementName)
    | JSXMemberExpression(obj: ElementName, property: ElementName)

  /** The qualified name: `ns:name` for a namespaced name, `object.property` for a member chain. */
  function QualifiedName(n: ElementName): string {
    match n
    case JSXIdentifier(name) => name
    case JSXNamespacedName(ns, local) => QualifiedName(ns) + ":" + QualifiedName(local)
    case JSXMemberExpression(obj, property) => QualifiedName(obj) + "." + QualifiedName(property)
  }

  /** A JSX identifier token: non-empty, and `:` and `.` are punctuators, never part of it. */
  predicate IdentifierText(s: string) {
    |s| > 0 && ':' !in s && '.' !in s
  }

  predicate IsIdentifier(n: ElementName) {
    n.JSXIdentifier? && IdentifierText(n.name)
  }

  /** An identifier, or a member chain nested to the left: `a`, `a.b`, `a.b.c`. */
  predicate MemberChain(n: ElementName) {
    IsIdentifier(n) || (n.JSXMemberExpression? && MemberChain(n.obj) && IsIdentifier(n.property))
  }

  /** The shapes parseJSXElementName builds. */
  predicate WellFormed(n: ElementName) {
    MemberChain(n) || (n.JSXNamespacedName? && IsIdentifier(n.namespace) && IsIdentifier(n.local))
  }

  /** The first position of c in s. */
  function FirstIndex(s: string, c: char): (r: Option<nat>)
    ensures r.Some? ==> r.value < |s| && s[r.value] == c && c !in s[..r.value]
    ensures r.None? ==> c !in s
  {
    if |s| == 0 then None
    else if s[0] == c then Some(0)
    else
      match FirstIndex(s[1..], c)
      case None => None
      case Some(k) =>
        assert s[..k + 1] == [s[0]] + s[1..][..k];
        Some(k + 1)
  }

  /** The last position of c in s. */
  function LastIndex(s: string, c: char): (r: Option<nat>)
    ensures r.Some? ==> r.value < |s| && s[r.value] == c && c !in s[r.value + 1..]
    ensures r.None? ==> c !in s
  {
    if |s| == 0 then None
    else if s[|s| - 1] == c then Some(|s| - 1)
    else
      match LastIndex(s[..|s| - 1], c)
      case None => None
      case Some(k) =>
        assert s[k + 1..] == s[..|s| - 1][k + 1..] + [s[|s| - 1]];
        Some(k)
  }

  /** Reads a member chain back: split at the last `.`. */
  function ReadChain(s: string): ElementName
    decreases |s|
  {
    match LastIndex(s, '.')
    case None => JSXIdentifier(s)
    case Some(k) => JSXMemberExpression(ReadChain(s[..k]), JSXIdentifier(s[k + 1..]))
  }

  /** Reads a qualified name back: a `:` makes a namespaced name, otherwise a member chain. */
  function ReadName(s: string): ElementName {
    match FirstIndex(s, ':')
    case None => ReadChain(s)
    case Some(k) => JSXNamespacedName(JSXIdentifier(s[..k]), JSXIdentifier(s[k + 1..]))
  }

  lemma {:induction false} ChainHasNoColon(n: ElementName)
    requires MemberChain(n)
    ensures ':' !in QualifiedName(n)
    ensures |QualifiedName(n)| > 0
  {
    if !IsIdentifier(n) {
      ChainHasNoColon(n.obj);
    }
  }

  lemma {:induction false} ReadChainQualified(n: ElementName)
    requires MemberChain(n)
    ensures ReadChain(QualifiedName(n)) == n
  {
    if !IsIdentifier(n) {
      var left, right := QualifiedName(n.obj), n.property.name;
      var s := left + "." + right;
      assert s[|left|] == '.';
      assert s[|left| + 1..] == right;
      assert s[..|left|] == left;
      assert LastIndex(s, '.') == Some(|left|) by {
        LastAfterSeparator(left, right);
      }
      ReadChainQualified(n.obj);
    }
  }

  lemma {:induction false} LastAfterSeparator(left: string, right: string)
    requires '.' !in right
    ensures LastIndex(left + "." + right, '.') == Some(|left|)
    decreases |right|
  {
    var s := left + "." + right;
    if |right| > 0 {
      var shorter := right[..|right| - 1];
      assert s[..|s| - 1] == left + "." + shorter;
      assert s[|s| - 1] == right[|right| - 1];
      LastAfterSeparator(left, shorter);
    }
  }

  lemma {:induction false} FirstAtSeparator(left: string, right: string)
    requires ':' !in left
    ensures FirstIndex(left + ":" + right, ':') == Some(|left|)
    decreases |left|
  {
    var s := left + ":" + right;
    if |left| > 0 {
      assert s[1..] == left[1..] + ":" + right;
      assert s[0] == left[0];
      FirstAtSeparator(left[1..], right);
    }
  }

  /** Reading a qualified name gives back the name it came from. */
  lemma ReadNameQualified(n: ElementName)
    requires WellFormed(n)
    ensures ReadName(QualifiedName(n)) == n
  {
    if MemberChain(n) {
      ChainHasNoColon(n);
      ReadChainQualified(n);
    } else {
      var left, right := n.namespace.name, n.local.name;
      var s := left + ":" + right;
      FirstAtSeparator(left, right);
      assert s[..|left|] == left;
      assert s[|left| + 1..] == right;
    }
  }

  /**
   * Closing-tag matching by qualified name is exact: two names the parser
   * builds have the same qualified name if and only if they are the same name.
   */
  lemma SameQualifiedNameIffSameName(a: ElementName, b: ElementName)
    requires WellFormed(a) && WellFormed(b)
    ensures QualifiedName(a) == QualifiedName(b) <==> a == b
  {
    ReadNameQualified(a);
    ReadNameQualified(b);
  }
}
