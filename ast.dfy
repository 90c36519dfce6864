/** Values shared by every rule: optional values, AST node identities, names
    and the diagnostics a rule reports. */
module Ast {

  /** The "may or may not resolve" result of a lookup (`null`/`undefined` in the source). */
  datatype Option<+T> = None | Some(value: T)

  /** The identity of an AST node; a diagnostic names the nodes it blames by identity. */
  type NodeId = nat

  /** A `Name` node: its identity and its string value. */
  datatype NameNode = NameNode(id: NodeId, value: string)

  /** A reported validation error: its message and the nodes it is attributed to. */
  datatype Diagnostic = Diagnostic(message: string, nodes: seq<NodeId>)

  predicate IsLetter(c: char) {
    ('A' <= c <= 'Z') || ('a' <= c <= 'z')
  }

  predicate IsDigit(c: char) {
    '0' <= c <= '9'
  }

  predicate IsNameChar(c: char) {
    IsLetter(c) || IsDigit(c) || c == '_'
  }

  /** The lexical grammar of a GraphQL Name: /[_A-Za-z][_0-9A-Za-z]* /.
      Every name the parser puts into an AST, and every name of a schema
      element, has this form. */
  predicate IsName(s: string) {
    && |s| > 0
    && !IsDigit(s[0])
    && forall i :: 0 <= i < |s| ==> IsNameChar(s[i])
  }

  /** A name never contains a punctuator that the diagnostic messages use as a delimiter. */
  lemma NameHasNoDelimiter(s: string, c: char)
    requires IsName(s)
    requires !IsNameChar(c)
    ensures c !in s
  {
  }
}
