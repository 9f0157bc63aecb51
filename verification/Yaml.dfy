// YAML documents as ordered trees. Comments, anchors, quoting and layout are not
// part of a tree.
module Yaml {
  import opened Outcome

  // A scalar: a string, another non-null value with its text, or null.
  datatype Scalar = Str(s: string) | Other(text: string) | Null

  datatype Node =
    | Leaf(value: Scalar)
    | Map(pairs: seq<Pair>)
    | Seq(items: seq<Node>)

  datatype Pair = Pair(key: Node, value: Node)

  // String(key.value) of a scalar key
  function KeyText(v: Scalar): string {
    match v
    case Str(s) => s
    case Other(text) => text
    case Null => "null"
  }

  // Value of the first pair with the given string key.
  function Get(pairs: seq<Pair>, key: string): Option<Node> {
    if pairs == [] then None
    else if pairs[0].key == Leaf(Str(key)) then Some(pairs[0].value)
    else Get(pairs[1..], key)
  }

  // The string at the given key, if there is one.
  function GetString(pairs: seq<Pair>, key: string): Option<string> {
    match Get(pairs, key)
    case Some(Leaf(Str(s))) => Some(s)
    case _ => None
  }
}
