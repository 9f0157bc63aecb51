// Parsed YAML documents: trees whose scalar nodes are overwritten in place.
module YamlTree {
  import opened Yaml

  class ScalarNode {
    var value: Scalar

    constructor (value: Scalar)
      ensures this.value == value
    {
      this.value := value;
    }
  }

  datatype Tree =
    | ScalarTree(node: ScalarNode)
    | MapTree(pairs: seq<PairTree>)
    | SeqTree(items: seq<Tree>)

  datatype PairTree = PairTree(key: Tree, value: Tree)

  // ----- the scalar nodes of a tree -----

  ghost function Nodes(t: Tree): set<ScalarNode>
    decreases t, 0
  {
    match t
    case ScalarTree(node) => {node}
    case MapTree(pairs) => PairsNodes(pairs)
    case SeqTree(items) => ItemsNodes(items)
  }

  ghost function PairNodes(p: PairTree): set<ScalarNode>
    decreases p, 1
  {
    Nodes(p.key) + Nodes(p.value)
  }

  ghost function PairsNodes(pairs: seq<PairTree>): set<ScalarNode>
    decreases pairs, 0
  {
    if pairs == [] then {} else PairNodes(pairs[0]) + PairsNodes(pairs[1..])
  }

  ghost function ItemsNodes(items: seq<Tree>): set<ScalarNode>
    decreases items, 0
  {
    if items == [] then {} else Nodes(items[0]) + ItemsNodes(items[1..])
  }

  // No scalar node is shared.
  ghost predicate Separate(t: Tree)
    decreases t, 0
  {
    match t
    case ScalarTree(_) => true
    case MapTree(pairs) => PairsSeparate(pairs)
    case SeqTree(items) => ItemsSeparate(items)
  }

  ghost predicate PairSeparate(p: PairTree)
    decreases p, 1
  {
    Nodes(p.key) !! Nodes(p.value) && Separate(p.key) && Separate(p.value)
  }

  ghost predicate PairsSeparate(pairs: seq<PairTree>)
    decreases pairs, 0
  {
    pairs != [] ==> PairNodes(pairs[0]) !! PairsNodes(pairs[1..]) && PairSeparate(pairs[0]) && PairsSeparate(pairs[1..])
  }

  ghost predicate ItemsSeparate(items: seq<Tree>)
    decreases items, 0
  {
    items != [] ==> Nodes(items[0]) !! ItemsNodes(items[1..]) && Separate(items[0]) && ItemsSeparate(items[1..])
  }

  // ----- the value of a tree -----

  function View(t: Tree): Node
    reads Nodes(t)
    decreases t, 0
  {
    match t
    case ScalarTree(node) => Leaf(node.value)
    case MapTree(pairs) => Map(PairsView(pairs))
    case SeqTree(items) => Seq(ItemsView(items))
  }

  function PairView(p: PairTree): Pair
    reads PairNodes(p)
    decreases p, 1
  {
    Pair(View(p.key), View(p.value))
  }

  function PairsView(pairs: seq<PairTree>): seq<Pair>
    reads PairsNodes(pairs)
    decreases pairs, 0
  {
    if pairs == [] then [] else [PairView(pairs[0])] + PairsView(pairs[1..])
  }

  function ItemsView(items: seq<Tree>): seq<Node>
    reads ItemsNodes(items)
    decreases items, 0
  {
    if items == [] then [] else [View(items[0])] + ItemsView(items[1..])
  }

  // ----- parsing: a fresh tree for a document -----

  method Parse(n: Node) returns (t: Tree)
    ensures View(t) == n && Separate(t) && fresh(Nodes(t)) && allocated(Nodes(t))
    decreases n, 0
  {
    match n
    case Leaf(v) =>
      var node := new ScalarNode(v);
      t := ScalarTree(node);
    case Map(pairs) =>
      var ps := ParsePairs(pairs);
      t := MapTree(ps);
    case Seq(items) =>
      var ns := ParseItems(items);
      t := SeqTree(ns);
  }

  method ParsePair(pair: Pair) returns (p: PairTree)
    ensures PairView(p) == pair && PairSeparate(p) && fresh(PairNodes(p)) && allocated(PairNodes(p))
    decreases pair, 1
  {
    var key := Parse(pair.key);
    var value := Parse(pair.value);
    p := PairTree(key, value);
  }

  method ParsePairs(pairs: seq<Pair>) returns (ps: seq<PairTree>)
    ensures PairsView(ps) == pairs && PairsSeparate(ps) && fresh(PairsNodes(ps)) && allocated(PairsNodes(ps))
    decreases pairs, 0
  {
    if pairs == [] {
      ps := [];
    } else {
      var first := ParsePair(pairs[0]);
      var rest := ParsePairs(pairs[1..]);
      ps := [first] + rest;
      assert ps[1..] == rest;
    }
  }

  method ParseItems(items: seq<Node>) returns (ts: seq<Tree>)
    ensures ItemsView(ts) == items && ItemsSeparate(ts) && fresh(ItemsNodes(ts)) && allocated(ItemsNodes(ts))
    decreases items, 0
  {
    if items == [] {
      ts := [];
    } else {
      var first := Parse(items[0]);
      var rest := ParseItems(items[1..]);
      ts := [first] + rest;
      assert ts[1..] == rest;
    }
  }
}
