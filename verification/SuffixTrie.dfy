// The reverse-suffix trie of the unreachable-rule linter
// (packages/shared/src/linter/unreachable.ts).
module SuffixTrie {
  import opened Text

  function Reverse(s: string): (r: string)
    ensures |r| == |s|
    ensures forall i :: 0 <= i < |s| ==> r[i] == s[|s| - 1 - i]
  {
    if s == "" then "" else Reverse(s[1..]) + [s[0]]
  }

  lemma ReverseInjective(a: string, b: string)
    requires Reverse(a) == Reverse(b)
    ensures a == b
  {
    assert |a| == |b|;
    forall i | 0 <= i < |a| ensures a[i] == b[i] {
      assert Reverse(a)[|a| - 1 - i] == Reverse(b)[|a| - 1 - i];
    }
  }

  lemma {:induction false} ReverseConcat(a: string, b: string)
    ensures Reverse(a + b) == Reverse(b) + Reverse(a)
  {
    if a == "" {
      assert a + b == b;
    } else {
      assert (a + b)[1..] == a[1..] + b;
      ReverseConcat(a[1..], b);
    }
  }

  // A label boundary after a prefix of the reversed value is a suffix "." + v.
  lemma ReversedPrefix(value: string, v: string)
    ensures EndsWith(value, "." + v) <==>
              |v| < |value| && Reverse(value)[..|v|] == Reverse(v) && Reverse(value)[|v|] == '.'
  {
    if |v| < |value| {
      var head, tail := value[..|value| - |v| - 1], value[|value| - |v| - 1..];
      assert value == head + tail;
      ReverseConcat(head, tail);
      ReverseConcat(".", v);
      assert Reverse(".") == ".";
      hide Reverse;
      var rev := Reverse(value);
      assert rev[..|v| + 1] == Reverse(tail);
      assert rev[..|v| + 1] == rev[..|v|] + [rev[|v|]];
      if rev[..|v|] == Reverse(v) && rev[|v|] == '.' {
        ReverseInjective(tail, "." + v);
      }
    }
  }

  class TrieNode {
    var children: map<char, TrieNode>
    var endIndex: int // -1 = no terminal
    ghost const path: string // the characters from the root to this node

    constructor (ghost path: string)
      ensures children == map[] && endIndex == -1 && this.path == path
    {
      this.path := path;
      children := map[];
      endIndex := -1;
    }
  }

  ghost function Prefix(s: string, n: nat): string
    requires n <= |s|
  {
    s[..n]
  }

  // Smallest stored index among the first n prefixes of rev that end at a label
  // boundary, or -1.
  ghost function BestUpTo(ends: map<string, nat>, rev: string, n: nat): (best: int)
    requires n <= |rev|
  {
    if n == 0 then -1
    else
      var best := BestUpTo(ends, rev, n - 1);
      var p := Prefix(rev, n - 1);
      if rev[n - 1] == '.' && p in ends && (best == -1 || ends[p] < best) then ends[p] else best
  }

  ghost predicate Boundary(ends: map<string, nat>, rev: string, k: nat) {
    k < |rev| && rev[k] == '.' && Prefix(rev, k) in ends
  }

  lemma {:induction false} BestUpToMeaning(ends: map<string, nat>, rev: string, n: nat)
    requires n <= |rev|
    ensures var best := BestUpTo(ends, rev, n);
            && best >= -1
            && (best == -1 ==> forall k :: 0 <= k < n ==> !Boundary(ends, rev, k))
            && (best != -1 ==> exists k :: 0 <= k < n && Boundary(ends, rev, k) && ends[Prefix(rev, k)] == best)
            && (best != -1 ==> forall k :: 0 <= k < n && Boundary(ends, rev, k) ==> best <= ends[Prefix(rev, k)])
  {
    if n > 0 {
      BestUpToMeaning(ends, rev, n - 1);
      hide Prefix;
      if Boundary(ends, rev, n - 1) && BestUpTo(ends, rev, n) == ends[Prefix(rev, n - 1)] {
        assert Boundary(ends, rev, n - 1);
      }
    }
  }

  lemma BestUpToNone(ends: map<string, nat>, rev: string)
    ensures BestUpTo(ends, rev, 0) == -1
  {
  }

  lemma BestUpToStep(ends: map<string, nat>, rev: string, n: nat)
    requires n < |rev|
    ensures var best := BestUpTo(ends, rev, n);
            var p := Prefix(rev, n);
            BestUpTo(ends, rev, n + 1) ==
              if rev[n] == '.' && p in ends && (best == -1 || ends[p] < best) then ends[p] else best
  {
  }

  ghost function Extend(p: string, c: char): string {
    p + [c]
  }

  lemma PrefixFacts(s: string)
    ensures Prefix(s, 0) == "" && Prefix(s, |s|) == s
    ensures forall i :: 0 <= i < |s| ==> Extend(Prefix(s, i), s[i]) == Prefix(s, i + 1)
  {
  }

  // What the trie holds at a path: the node, its edges and its terminal index.
  datatype Cell = Cell(node: TrieNode, kids: map<char, TrieNode>, end: int)

  type Cells = map<string, Cell>

  ghost predicate Holds(cell: Cell, p: string)
    reads cell.node
  {
    cell.node.path == p && cell.node.children == cell.kids && cell.node.endIndex == cell.end
  }

  // Edges lead to the nodes one character further; terminals are the keys of ends.
  ghost predicate Shaped(cells: Cells, ends: map<string, nat>) {
    && "" in cells
    && (forall p, c :: Extend(p, c) in cells ==> p in cells)
    && (forall p, c :: p in cells ==> (c in cells[p].kids <==> Extend(p, c) in cells))
    && (forall p, c :: p in cells && c in cells[p].kids ==> cells[p].kids[c] == cells[Extend(p, c)].node)
    && ends.Keys <= cells.Keys
    && (forall p :: p in cells ==> cells[p].end == if p in ends then ends[p] else -1)
  }

  ghost function AddCell(cells: Cells, p: string, c: char, next: TrieNode): Cells
    requires p in cells
  {
    cells[p := cells[p].(kids := cells[p].kids[c := next])][Extend(p, c) := Cell(next, map[], -1)]
  }

  lemma AddCellShaped(cells: Cells, ends: map<string, nat>, p: string, c: char, next: TrieNode)
    requires Shaped(cells, ends) && p in cells && c !in cells[p].kids
    ensures Shaped(AddCell(cells, p, c, next), ends)
    ensures Extend(p, c) !in cells && Extend(p, c) != p
  {
    hide Extend;
    ExtendFacts(p, c);
  }

  lemma ShapedAt(cells: Cells, ends: map<string, nat>, p: string, c: char)
    requires Shaped(cells, ends) && p in cells
    ensures cells[p].end == if p in ends then ends[p] else -1
    ensures c in cells[p].kids ==> Extend(p, c) in cells && cells[p].kids[c] == cells[Extend(p, c)].node
  {
  }

  lemma SetEndShaped(cells: Cells, ends: map<string, nat>, p: string, index: nat)
    requires Shaped(cells, ends) && p in cells
    ensures Shaped(cells[p := cells[p].(end := index)], ends[p := index])
  {
    hide Extend;
  }

  class Trie {
    const root: TrieNode
    ghost var cells: Cells
    ghost var ends: map<string, nat> // the terminal index of each path that has one
    ghost var repr: set<TrieNode>

    ghost predicate Valid()
      reads this, repr
    {
      && Shaped(cells, ends)
      && "" in cells && cells[""].node == root
      && forall p :: p in cells ==> cells[p].node in repr && Holds(cells[p], p)
    }

    constructor ()
      ensures Valid() && fresh(repr)
      ensures ends == map[]
    {
      root := new TrieNode("");
      cells := map["" := Cell(root, map[], -1)];
      ends := map[];
      repr := {root};
      new;
      assert forall p, c :: Extend(p, c) != "";
    }

    method AddChild(node: TrieNode, ghost p: string, c: char) returns (next: TrieNode)
      requires Valid() && p in cells && cells[p].node == node && c !in node.children
      modifies this`cells, this`repr, node`children
      ensures Valid() && fresh(repr - old(repr))
      ensures Extend(p, c) in cells && cells[Extend(p, c)].node == next
      ensures ends == old(ends)
    {
      next := new TrieNode(Extend(p, c));
      Attach(node, p, c, next);
    }

    method Attach(node: TrieNode, ghost p: string, c: char, next: TrieNode)
      requires Valid() && p in cells && cells[p].node == node && c !in node.children
      requires next !in repr && Holds(Cell(next, map[], -1), Extend(p, c))
      modifies this`cells, this`repr, node`children
      ensures Valid() && repr == old(repr) + {next}
      ensures Extend(p, c) in cells && cells[Extend(p, c)].node == next
      ensures ends == old(ends)
    {
      hide Extend, Shaped;
      AddCellShaped(cells, ends, p, c, next);
      node.children := node.children[c := next];
      cells := AddCell(cells, p, c, next);
      repr := repr + {next};
    }

    // Follows the edge c, adding it if it is missing.
    method Descend(node: TrieNode, ghost p: string, c: char) returns (next: TrieNode)
      requires Valid() && p in cells && cells[p].node == node
      modifies this`cells, this`repr, repr`children
      ensures Valid() && fresh(repr - old(repr))
      ensures Extend(p, c) in cells && cells[Extend(p, c)].node == next
      ensures ends == old(ends)
    {
      ShapedAt(cells, ends, p, c);
      if c in node.children {
        next := node.children[c];
      } else {
        next := AddChild(node, p, c);
      }
    }

    method SetEnd(node: TrieNode, ghost p: string, index: nat)
      requires Valid() && p in cells && cells[p].node == node && p !in ends
      modifies this`cells, this`ends, node`endIndex
      ensures Valid() && repr == old(repr) && ends == old(ends)[p := index]
    {
      hide Shaped;
      SetEndShaped(cells, ends, p, index);
      node.endIndex := index;
      cells := cells[p := cells[p].(end := index)];
      ends := ends[p := index];
    }

    // Looks up the earliest shadowing suffix of value, then records value at
    // curIndex unless it is recorded already. The empty value is neither looked
    // up nor recorded.
    method LookupAndInsert(value: string, curIndex: nat) returns (best: int)
      requires Valid()
      modifies this`cells, this`ends, this`repr, repr
      ensures Valid() && fresh(repr - old(repr))
      ensures ends == if value == "" || Reverse(value) in old(ends) then old(ends)
                      else old(ends)[Reverse(value) := curIndex]
      ensures value == "" ==> best == -1
      ensures value != "" ==> best == BestUpTo(old(ends), Reverse(value), |value|)
    {
      if |value| == 0 {
        return -1;
      }
      hide Shaped, Holds, Reverse, BestUpTo, Prefix, Extend;
      var rev := Reverse(value);
      var node := root;
      best := -1;
      var i := 0;
      PrefixFacts(rev);
      BestUpToNone(ends, rev);
      while i < |rev|
        invariant 0 <= i <= |rev|
        invariant Valid() && ends == old(ends) && fresh(repr - old(repr))
        invariant Prefix(rev, i) in cells && cells[Prefix(rev, i)].node == node
        invariant best == BestUpTo(ends, rev, i)
      {
        var ch := rev[i];
        ShapedAt(cells, ends, Prefix(rev, i), ch);
        BestUpToStep(ends, rev, i);
        if node.endIndex != -1 && ch == '.' {
          if best == -1 || node.endIndex < best {
            best := node.endIndex;
          }
        }
        node := Descend(node, Prefix(rev, i), ch);
        i := i + 1;
      }
      ShapedAt(cells, ends, rev, '.');
      if node.endIndex == -1 {
        SetEnd(node, rev, curIndex);
      }
    }
  }

  lemma ExtendFacts(p: string, c: char)
    ensures Extend(p, c) != "" && Extend(p, c) != p
    ensures forall q, d :: Extend(q, d) == Extend(p, c) ==> q == p && d == c
  {
    forall q, d | Extend(q, d) == Extend(p, c) ensures q == p && d == c {
      ExtendInjective(q, d, p, c);
    }
  }

  lemma ExtendInjective(p: string, c: char, q: string, d: char)
    requires Extend(p, c) == Extend(q, d)
    ensures p == q && c == d
  {
    assert Extend(p, c)[..|p|] == p && Extend(q, d)[..|q|] == q;
    assert Extend(p, c)[|p|] == c && Extend(q, d)[|q|] == d;
  }
}
