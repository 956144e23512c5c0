/** The node tree the rule file is parsed into, and the accesses the readers
    make. Lexing and number syntax are foreign: the text conversions are
    parameters, and a conversion or subscript that throws is an outcome. */
module Yaml {
  import opened Base

  datatype Node =
    | Undefined
    | Null
    | Scalar(text: string)
    | Sequence(items: seq<Node>)
    | Mapping(entries: map<string, Node>)

  /** What the text of a scalar converts to; None stands for an exception. */
  datatype Conversions = Conversions(
    toInt: string -> Option<int>,
    toUint32: string -> Option<nat>,
    toUint16: string -> Option<nat>,
    nullText: Option<string>)

  /** Subscripting with a key. A scalar throws (None); a mapping without the key
      and every other kind of node yield the undefined node. */
  function Subscript(node: Node, key: string): Option<Node> {
    match node
    case Scalar(_) => None
    case Mapping(entries) => Some(if key in entries then entries[key] else Undefined)
    case _ => Some(Undefined)
  }

  /** The child under a key, read as undefined where subscripting would throw. */
  function Child(node: Node, key: string): Node {
    match Subscript(node, key)
    case Some(child) => child
    case None => Undefined
  }

  function AsText(c: Conversions, node: Node): Option<string> {
    match node
    case Scalar(text) => Some(text)
    case Null => c.nullText
    case _ => None
  }

  function AsInt(c: Conversions, node: Node): Option<int> {
    if node.Scalar? then c.toInt(node.text) else None
  }

  /** Lower-casing of ASCII letters, character by character. */
  function Lower(s: string): (r: string)
    ensures |r| == |s|
    ensures forall i :: 0 <= i < |s| ==> r[i] == if 'A' <= s[i] <= 'Z' then (s[i] as int + 32) as char else s[i]
  {
    seq(|s|, i requires 0 <= i < |s| =>
      if 'A' <= s[i] <= 'Z' then (s[i] as int + 32) as char else s[i])
  }
}
