// Laws of masking and unmasking.
module MaskLaws {
  import opened Outcome
  import opened Yaml
  import opened Mask

  // ----- masking is idempotent -----

  lemma SentinelNotSecret(key: Node, uuid: string, fields: set<string>)
    ensures SecretOf(Pair(key, Leaf(Str(Sentinel(uuid)))), fields).None?
  {
    SentinelUuid(uuid);
  }

  // A second mask mints nothing and changes nothing.
  lemma {:induction false} MaskTwice(n: Node, fields: set<string>, uuid: nat -> string, k: nat, j: nat)
    ensures Secrets(Masked(n, fields, uuid, k), fields) == []
    ensures Masked(Masked(n, fields, uuid, k), fields, uuid, j) == Masked(n, fields, uuid, k)
    decreases n, 0
  {
    match n
    case Leaf(_) =>
    case Map(pairs) => MaskPairsTwice(pairs, fields, uuid, k, j);
    case Seq(items) => MaskItemsTwice(items, fields, uuid, k, j);
  }

  lemma {:induction false} MaskPairTwice(pair: Pair, fields: set<string>, uuid: nat -> string, k: nat, j: nat)
    ensures SecretsOf(MaskedPair(pair, fields, uuid, k), fields) == []
    ensures MaskedPair(MaskedPair(pair, fields, uuid, k), fields, uuid, j) == MaskedPair(pair, fields, uuid, k)
    decreases pair, 1
  {
    if SecretOf(pair, fields).Some? {
      SentinelNotSecret(pair.key, uuid(k), fields);
    } else {
      var m := k + |Secrets(pair.key, fields)|;
      MaskTwice(pair.key, fields, uuid, k, j);
      MaskTwice(pair.value, fields, uuid, m, j);
      MaskedStaysPlain(pair, fields, uuid, k);
    }
  }

  // Masking below a pair does not turn the pair itself into a secret one.
  lemma MaskedStaysPlain(pair: Pair, fields: set<string>, uuid: nat -> string, k: nat)
    requires SecretOf(pair, fields).None?
    ensures SecretOf(MaskedPair(pair, fields, uuid, k), fields).None?
  {
  }

  lemma {:induction false} MaskPairsTwice(pairs: seq<Pair>, fields: set<string>, uuid: nat -> string, k: nat, j: nat)
    ensures PairSecrets(MaskedPairs(pairs, fields, uuid, k), fields) == []
    ensures MaskedPairs(MaskedPairs(pairs, fields, uuid, k), fields, uuid, j) == MaskedPairs(pairs, fields, uuid, k)
    decreases pairs, 0
  {
    if pairs != [] {
      var m := k + |SecretsOf(pairs[0], fields)|;
      MaskPairTwice(pairs[0], fields, uuid, k, j);
      MaskPairsTwice(pairs[1..], fields, uuid, m, j);
      hide MaskedPair, SecretsOf;
      assert MaskedPairs(pairs, fields, uuid, k)[1..] == MaskedPairs(pairs[1..], fields, uuid, m);
    }
  }

  lemma {:induction false} MaskItemsTwice(items: seq<Node>, fields: set<string>, uuid: nat -> string, k: nat, j: nat)
    ensures ItemSecrets(MaskedItems(items, fields, uuid, k), fields) == []
    ensures MaskedItems(MaskedItems(items, fields, uuid, k), fields, uuid, j) == MaskedItems(items, fields, uuid, k)
    decreases items, 0
  {
    if items != [] {
      var m := k + |Secrets(items[0], fields)|;
      MaskTwice(items[0], fields, uuid, k, j);
      MaskItemsTwice(items[1..], fields, uuid, m, j);
      hide Masked, Secrets;
      assert MaskedItems(items, fields, uuid, k)[1..] == MaskedItems(items[1..], fields, uuid, m);
    }
  }

  // ----- unmasking undoes masking, up to string coercion -----

  // The tree with every secret scalar replaced by its text.
  function Coerced(n: Node, fields: set<string>): Node
    decreases n, 0
  {
    match n
    case Leaf(_) => n
    case Map(pairs) => Map(CoercedPairs(pairs, fields))
    case Seq(items) => Seq(CoercedItems(items, fields))
  }

  function CoercedPair(pair: Pair, fields: set<string>): Pair
    decreases pair, 1
  {
    match SecretOf(pair, fields)
    case Some(text) => Pair(pair.key, Leaf(Str(text)))
    case None => Pair(Coerced(pair.key, fields), Coerced(pair.value, fields))
  }

  function CoercedPairs(pairs: seq<Pair>, fields: set<string>): (r: seq<Pair>)
    ensures |r| == |pairs|
    decreases pairs, 0
  {
    if pairs == [] then [] else [CoercedPair(pairs[0], fields)] + CoercedPairs(pairs[1..], fields)
  }

  function CoercedItems(items: seq<Node>, fields: set<string>): (r: seq<Node>)
    ensures |r| == |items|
    decreases items, 0
  {
    if items == [] then [] else [Coerced(items[0], fields)] + CoercedItems(items[1..], fields)
  }

  lemma {:induction false} HoldsSplit(values: Values, a: seq<string>, b: seq<string>, uuid: nat -> string, k: nat)
    ensures Holds(values, a + b, uuid, k) <==> Holds(values, a, uuid, k) && Holds(values, b, uuid, k + |a|)
    decreases |a|
  {
    if a == [] {
      assert a + b == b;
    } else {
      assert (a + b)[1..] == a[1..] + b;
      HoldsSplit(values, a[1..], b, uuid, k + 1);
    }
  }

  lemma {:induction false} UnmaskMasked(n: Node, fields: set<string>, uuid: nat -> string, k: nat, values: Values)
    requires Holds(values, Secrets(n, fields), uuid, k)
    ensures Unmask(Masked(n, fields, uuid, k), values) == Unmask(Coerced(n, fields), values)
    decreases n, 0
  {
    match n
    case Leaf(_) =>
    case Map(pairs) => UnmaskMaskedPairs(pairs, fields, uuid, k, values);
    case Seq(items) => UnmaskMaskedItems(items, fields, uuid, k, values);
  }

  lemma {:induction false} UnmaskMaskedPair(pair: Pair, fields: set<string>, uuid: nat -> string, k: nat, values: Values)
    requires Holds(values, SecretsOf(pair, fields), uuid, k)
    ensures UnmaskPair(MaskedPair(pair, fields, uuid, k), values) == UnmaskPair(CoercedPair(pair, fields), values)
    decreases pair, 1
  {
    match SecretOf(pair, fields)
    case Some(text) =>
      SentinelUuid(uuid(k));
    case None =>
      var a, b := Secrets(pair.key, fields), Secrets(pair.value, fields);
      HoldsSplit(values, a, b, uuid, k);
      UnmaskMasked(pair.key, fields, uuid, k, values);
      UnmaskMasked(pair.value, fields, uuid, k + |a|, values);
      hide Holds, Secrets;
  }

  lemma UnmaskPairsCons(first: Pair, rest: seq<Pair>, values: Values)
    ensures UnmaskPairs([first] + rest, values) ==
            var f := UnmaskPair(first, values);
            if f.Err? then Err(f.error)
            else
              var r := UnmaskPairs(rest, values);
              if r.Err? then Err(r.error) else Ok([f.value] + r.value)
  {
    hide UnmaskPair;
    assert ([first] + rest)[1..] == rest;
  }

  lemma UnmaskItemsCons(first: Node, rest: seq<Node>, values: Values)
    ensures UnmaskItems([first] + rest, values) ==
            var f := Unmask(first, values);
            if f.Err? then Err(f.error)
            else
              var r := UnmaskItems(rest, values);
              if r.Err? then Err(r.error) else Ok([f.value] + r.value)
  {
    hide Unmask;
    assert ([first] + rest)[1..] == rest;
  }

  lemma {:induction false} UnmaskMaskedPairs(pairs: seq<Pair>, fields: set<string>, uuid: nat -> string, k: nat, values: Values)
    requires Holds(values, PairSecrets(pairs, fields), uuid, k)
    ensures UnmaskPairs(MaskedPairs(pairs, fields, uuid, k), values) == UnmaskPairs(CoercedPairs(pairs, fields), values)
    decreases pairs, 0
  {
    if pairs != [] {
      var a, b := SecretsOf(pairs[0], fields), PairSecrets(pairs[1..], fields);
      HoldsSplit(values, a, b, uuid, k);
      UnmaskMaskedPair(pairs[0], fields, uuid, k, values);
      UnmaskMaskedPairs(pairs[1..], fields, uuid, k + |a|, values);
      UnmaskPairsCons(MaskedPair(pairs[0], fields, uuid, k), MaskedPairs(pairs[1..], fields, uuid, k + |a|), values);
      UnmaskPairsCons(CoercedPair(pairs[0], fields), CoercedPairs(pairs[1..], fields), values);
      hide Holds, MaskedPair, CoercedPair, UnmaskPair, UnmaskPairs, SecretsOf, PairSecrets;
    }
  }

  lemma {:induction false} UnmaskMaskedItems(items: seq<Node>, fields: set<string>, uuid: nat -> string, k: nat, values: Values)
    requires Holds(values, ItemSecrets(items, fields), uuid, k)
    ensures UnmaskItems(MaskedItems(items, fields, uuid, k), values) == UnmaskItems(CoercedItems(items, fields), values)
    decreases items, 0
  {
    if items != [] {
      var a, b := Secrets(items[0], fields), ItemSecrets(items[1..], fields);
      HoldsSplit(values, a, b, uuid, k);
      UnmaskMasked(items[0], fields, uuid, k, values);
      UnmaskMaskedItems(items[1..], fields, uuid, k + |a|, values);
      hide Holds, Masked, Coerced, Unmask, Secrets;
      assert MaskedItems(items, fields, uuid, k)[1..] == MaskedItems(items[1..], fields, uuid, k + |a|);
      assert CoercedItems(items, fields)[1..] == CoercedItems(items[1..], fields);
    }
  }

  lemma {:induction false} CoercedIff(n: Node, fields: set<string>)
    ensures Coerced(n, fields) == n <==> StringSecrets(n, fields)
    decreases n, 0
  {
    match n
    case Leaf(_) =>
    case Map(pairs) => CoercedPairsIff(pairs, fields);
    case Seq(items) => CoercedItemsIff(items, fields);
  }

  lemma {:induction false} CoercedPairIff(pair: Pair, fields: set<string>)
    ensures CoercedPair(pair, fields) == pair <==> StringSecretsOf(pair, fields)
    decreases pair, 1
  {
    CoercedIff(pair.key, fields);
    CoercedIff(pair.value, fields);
  }

  lemma {:induction false} CoercedPairsIff(pairs: seq<Pair>, fields: set<string>)
    ensures CoercedPairs(pairs, fields) == pairs <==> forall p :: p in pairs ==> StringSecretsOf(p, fields)
    decreases pairs, 0
  {
    if pairs != [] {
      CoercedPairIff(pairs[0], fields);
      CoercedPairsIff(pairs[1..], fields);
      hide CoercedPair, StringSecretsOf;
      var c := CoercedPairs(pairs, fields);
      assert c[1..] == CoercedPairs(pairs[1..], fields);
      assert pairs == [pairs[0]] + pairs[1..];
      assert c == pairs ==> c[0] == pairs[0] && c[1..] == pairs[1..];
    }
  }

  lemma {:induction false} CoercedItemsIff(items: seq<Node>, fields: set<string>)
    ensures CoercedItems(items, fields) == items <==> forall m :: m in items ==> StringSecrets(m, fields)
    decreases items, 0
  {
    if items != [] {
      CoercedIff(items[0], fields);
      CoercedItemsIff(items[1..], fields);
      hide Coerced, StringSecrets;
      var c := CoercedItems(items, fields);
      assert c[1..] == CoercedItems(items[1..], fields);
      assert items == [items[0]] + items[1..];
      assert c == items ==> c[0] == items[0] && c[1..] == items[1..];
    }
  }

  // ----- sentinels, and where they stand -----

  lemma {:induction false} SentinelsSplit(n: Node)
    ensures Sentinels(n) == Pending(n) + Stuck(n)
    decreases n, 0
  {
    match n
    case Leaf(_) =>
    case Map(pairs) => PairSentinelsSplit(pairs);
    case Seq(items) => ItemSentinelsSplit(items);
  }

  lemma {:induction false} SentinelsOfSplit(pair: Pair)
    ensures SentinelsOf(pair) == MarksOf(pair, true) + MarksOf(pair, false)
    decreases pair, 1
  {
    SentinelsSplit(pair.key);
    SentinelsSplit(pair.value);
  }

  lemma {:induction false} PairSentinelsSplit(pairs: seq<Pair>)
    ensures PairSentinels(pairs) == PairMarks(pairs, true) + PairMarks(pairs, false)
    decreases pairs, 0
  {
    if pairs != [] {
      SentinelsOfSplit(pairs[0]);
      PairSentinelsSplit(pairs[1..]);
      hide SentinelsOf, MarksOf;
    }
  }

  lemma {:induction false} ItemSentinelsSplit(items: seq<Node>)
    ensures ItemSentinels(items) == ItemMarks(items, true) + ItemMarks(items, false)
    decreases items, 0
  {
    if items != [] {
      SentinelsSplit(items[0]);
      ItemSentinelsSplit(items[1..]);
      hide Sentinels, Marks;
    }
  }

  // Unmasking changes nothing when there is nothing to resolve.
  lemma {:induction false} UnmaskPlain(n: Node, values: Values)
    requires Pending(n) == {}
    ensures Unmask(n, values) == Ok(n)
    decreases n, 0
  {
    match n
    case Leaf(_) =>
    case Map(pairs) => UnmaskPlainPairs(pairs, values);
    case Seq(items) => UnmaskPlainItems(items, values);
  }

  lemma {:induction false} UnmaskPlainPairs(pairs: seq<Pair>, values: Values)
    requires PairMarks(pairs, true) == {}
    ensures UnmaskPairs(pairs, values) == Ok(pairs)
    decreases pairs, 0
  {
    if pairs != [] {
      UnmaskPlainPair(pairs[0], values);
      UnmaskPlainPairs(pairs[1..], values);
      hide MarksOf, UnmaskPair;
      assert pairs == [pairs[0]] + pairs[1..];
    }
  }

  lemma {:induction false} UnmaskPlainPair(pair: Pair, values: Values)
    requires MarksOf(pair, true) == {}
    ensures UnmaskPair(pair, values) == Ok(pair)
    decreases pair, 1
  {
    UnmaskPlain(pair.key, values);
    UnmaskPlain(pair.value, values);
    if pair.key.Leaf? && pair.value.Leaf? && pair.value.value.Str? && IsSentinel(pair.value.value.s) {
      PendingListed(pair);
    }
  }

  lemma PendingListed(pair: Pair)
    requires pair.key.Leaf? && pair.value.Leaf? && pair.value.value.Str? && IsSentinel(pair.value.value.s)
    ensures UuidOf(pair.value.value.s) in MarksOf(pair, true)
  {
  }

  lemma {:induction false} UnmaskPlainItems(items: seq<Node>, values: Values)
    requires ItemMarks(items, true) == {}
    ensures UnmaskItems(items, values) == Ok(items)
    decreases items, 0
  {
    if items != [] {
      UnmaskPlain(items[0], values);
      UnmaskPlainItems(items[1..], values);
      hide Marks, Unmask;
      assert items == [items[0]] + items[1..];
    }
  }

  // Coercion touches no sentinel.
  lemma {:induction false} CoercedMarks(n: Node, fields: set<string>, b: bool)
    ensures Marks(Coerced(n, fields), b) == Marks(n, b)
    decreases n, 0
  {
    match n
    case Leaf(_) =>
    case Map(pairs) => CoercedPairMarks(pairs, fields, b);
    case Seq(items) => CoercedItemMarks(items, fields, b);
  }

  lemma {:induction false} CoercedPairMarks(pairs: seq<Pair>, fields: set<string>, b: bool)
    ensures PairMarks(CoercedPairs(pairs, fields), b) == PairMarks(pairs, b)
    decreases pairs, 0
  {
    if pairs != [] {
      CoercedMarksOf(pairs[0], fields, b);
      CoercedPairMarks(pairs[1..], fields, b);
      hide MarksOf, CoercedPair;
      assert CoercedPairs(pairs, fields)[1..] == CoercedPairs(pairs[1..], fields);
    }
  }

  lemma {:induction false} CoercedMarksOf(pair: Pair, fields: set<string>, b: bool)
    ensures MarksOf(CoercedPair(pair, fields), b) == MarksOf(pair, b)
    decreases pair, 1
  {
    CoercedMarks(pair.key, fields, b);
    CoercedMarks(pair.value, fields, b);
  }

  lemma {:induction false} CoercedItemMarks(items: seq<Node>, fields: set<string>, b: bool)
    ensures ItemMarks(CoercedItems(items, fields), b) == ItemMarks(items, b)
    decreases items, 0
  {
    if items != [] {
      CoercedMarks(items[0], fields, b);
      CoercedItemMarks(items[1..], fields, b);
      hide Marks, Coerced;
      assert CoercedItems(items, fields)[1..] == CoercedItems(items[1..], fields);
    }
  }

  // Coercion leaves string secrets, and masks like the tree itself.
  lemma {:induction false} CoercedMasks(n: Node, fields: set<string>, uuid: nat -> string, k: nat)
    ensures StringSecrets(Coerced(n, fields), fields)
    ensures Secrets(Coerced(n, fields), fields) == Secrets(n, fields)
    ensures Masked(Coerced(n, fields), fields, uuid, k) == Masked(n, fields, uuid, k)
    decreases n, 0
  {
    match n
    case Leaf(_) =>
    case Map(pairs) => CoercedPairsMask(pairs, fields, uuid, k);
    case Seq(items) => CoercedItemsMask(items, fields, uuid, k);
  }

  lemma {:induction false} CoercedPairMasks(pair: Pair, fields: set<string>, uuid: nat -> string, k: nat)
    ensures StringSecretsOf(CoercedPair(pair, fields), fields)
    ensures SecretsOf(CoercedPair(pair, fields), fields) == SecretsOf(pair, fields)
    ensures MaskedPair(CoercedPair(pair, fields), fields, uuid, k) == MaskedPair(pair, fields, uuid, k)
    decreases pair, 1
  {
    if SecretOf(pair, fields).None? {
      CoercedMasks(pair.key, fields, uuid, k);
      CoercedMasks(pair.value, fields, uuid, k + |Secrets(pair.key, fields)|);
      CoercedLeaf(pair.key, fields);
      CoercedLeaf(pair.value, fields);
      hide Coerced, Masked, Secrets, StringSecrets;
    }
  }

  lemma CoercedLeaf(n: Node, fields: set<string>)
    ensures n.Leaf? <==> Coerced(n, fields).Leaf?
    ensures n.Leaf? ==> Coerced(n, fields) == n
  {
  }

  lemma {:induction false} CoercedPairsMask(pairs: seq<Pair>, fields: set<string>, uuid: nat -> string, k: nat)
    ensures forall p :: p in CoercedPairs(pairs, fields) ==> StringSecretsOf(p, fields)
    ensures PairSecrets(CoercedPairs(pairs, fields), fields) == PairSecrets(pairs, fields)
    ensures MaskedPairs(CoercedPairs(pairs, fields), fields, uuid, k) == MaskedPairs(pairs, fields, uuid, k)
    decreases pairs, 0
  {
    if pairs != [] {
      CoercedPairMasks(pairs[0], fields, uuid, k);
      CoercedPairsMask(pairs[1..], fields, uuid, k + |SecretsOf(pairs[0], fields)|);
      hide CoercedPair, MaskedPair, SecretsOf, StringSecretsOf;
      assert CoercedPairs(pairs, fields)[1..] == CoercedPairs(pairs[1..], fields);
    }
  }

  lemma {:induction false} CoercedItemsMask(items: seq<Node>, fields: set<string>, uuid: nat -> string, k: nat)
    ensures forall m :: m in CoercedItems(items, fields) ==> StringSecrets(m, fields)
    ensures ItemSecrets(CoercedItems(items, fields), fields) == ItemSecrets(items, fields)
    ensures MaskedItems(CoercedItems(items, fields), fields, uuid, k) == MaskedItems(items, fields, uuid, k)
    decreases items, 0
  {
    if items != [] {
      CoercedMasks(items[0], fields, uuid, k);
      CoercedItemsMask(items[1..], fields, uuid, k + |Secrets(items[0], fields)|);
      hide Coerced, Masked, Secrets, StringSecrets;
      assert CoercedItems(items, fields)[1..] == CoercedItems(items[1..], fields);
    }
  }

  // With no edit in between, unmasking after masking gives back a sentinel-free tree
  // exactly when all its secret scalars are strings.
  lemma MaskThenUnmaskIff(n: Node, fields: set<string>, uuid: nat -> string, k: nat, values: Values)
    requires Holds(values, Secrets(n, fields), uuid, k) && Pending(n) == {}
    ensures Unmask(Masked(n, fields, uuid, k), values) == Ok(Coerced(n, fields))
    ensures Unmask(Masked(n, fields, uuid, k), values) == Ok(n) <==> StringSecrets(n, fields)
  {
    UnmaskMasked(n, fields, uuid, k, values);
    CoercedMarks(n, fields, true);
    UnmaskPlain(Coerced(n, fields), values);
    CoercedIff(n, fields);
  }

  // For any tree with string secrets, unmasking after masking is unmasking alone.
  lemma UnmaskAfterMask(n: Node, fields: set<string>, uuid: nat -> string, k: nat, values: Values)
    requires Holds(values, Secrets(n, fields), uuid, k) && StringSecrets(n, fields)
    ensures Unmask(Masked(n, fields, uuid, k), values) == Unmask(n, values)
  {
    UnmaskMasked(n, fields, uuid, k, values);
    CoercedIff(n, fields);
  }

  // ----- the sentinels of a masked tree -----

  ghost function Minted(uuid: nat -> string, k: nat, count: nat): set<string>
    decreases count
  {
    if count == 0 then {} else {uuid(k)} + Minted(uuid, k + 1, count - 1)
  }

  lemma {:induction false} MintedSplit(uuid: nat -> string, k: nat, a: nat, b: nat)
    ensures Minted(uuid, k, a + b) == Minted(uuid, k, a) + Minted(uuid, k + a, b)
    decreases a
  {
    if a > 0 {
      MintedSplit(uuid, k + 1, a - 1, b);
    }
  }

  lemma {:induction false} MintedIndex(uuid: nat -> string, k: nat, count: nat, u: string) returns (i: nat)
    requires u in Minted(uuid, k, count)
    ensures k <= i < k + count && uuid(i) == u
    decreases count
  {
    if u == uuid(k) {
      i := k;
    } else {
      i := MintedIndex(uuid, k + 1, count - 1, u);
    }
  }

  // A masked tree holds the sentinels it held before and those minted for its secrets,
  // which all stand beside scalar keys.
  lemma MaskedSentinels(n: Node, fields: set<string>, uuid: nat -> string, k: nat)
    ensures var m := Masked(n, fields, uuid, k);
            && Sentinels(m) == Sentinels(n) + Minted(uuid, k, |Secrets(n, fields)|)
            && Pending(m) == Pending(n) + Minted(uuid, k, |Secrets(n, fields)|)
            && Stuck(m) == Stuck(n)
  {
    MaskedMarks(n, fields, uuid, k, true);
    MaskedMarks(n, fields, uuid, k, false);
    SentinelsSplit(n);
    SentinelsSplit(Masked(n, fields, uuid, k));
  }

  // The uuids minted, if they count.
  ghost function Counted(b: bool, uuid: nat -> string, k: nat, count: nat): set<string> {
    if b then Minted(uuid, k, count) else {}
  }

  lemma {:induction false} MaskedMarks(n: Node, fields: set<string>, uuid: nat -> string, k: nat, b: bool)
    ensures Marks(Masked(n, fields, uuid, k), b) == Marks(n, b) + Counted(b, uuid, k, |Secrets(n, fields)|)
    decreases n, 0
  {
    match n
    case Leaf(_) =>
    case Map(pairs) => MaskedPairsMarks(pairs, fields, uuid, k, b);
    case Seq(items) => MaskedItemsMarks(items, fields, uuid, k, b);
  }

  lemma {:induction false} MaskedPairMarks(pair: Pair, fields: set<string>, uuid: nat -> string, k: nat, b: bool)
    ensures MarksOf(MaskedPair(pair, fields, uuid, k), b) == MarksOf(pair, b) + Counted(b, uuid, k, |SecretsOf(pair, fields)|)
    decreases pair, 1
  {
    match SecretOf(pair, fields)
    case Some(text) =>
      SentinelUuid(uuid(k));
      assert Minted(uuid, k, 1) == {uuid(k)} + Minted(uuid, k + 1, 0);
      assert MarksOf(pair, b) == {};
    case None =>
      var x, y := |Secrets(pair.key, fields)|, |Secrets(pair.value, fields)|;
      MaskedMarks(pair.key, fields, uuid, k, b);
      MaskedMarks(pair.value, fields, uuid, k + x, b);
      MintedSplit(uuid, k, x, y);
      hide Minted, Secrets;
      MaskedLeaf(pair.key, fields, uuid, k);
      MaskedLeaf(pair.value, fields, uuid, k + x);
  }

  lemma MaskedLeaf(n: Node, fields: set<string>, uuid: nat -> string, k: nat)
    ensures n.Leaf? <==> Masked(n, fields, uuid, k).Leaf?
    ensures n.Leaf? ==> Masked(n, fields, uuid, k) == n
  {
  }

  lemma {:induction false} MaskedPairsMarks(pairs: seq<Pair>, fields: set<string>, uuid: nat -> string, k: nat, b: bool)
    ensures PairMarks(MaskedPairs(pairs, fields, uuid, k), b) == PairMarks(pairs, b) + Counted(b, uuid, k, |PairSecrets(pairs, fields)|)
    decreases pairs, 0
  {
    if pairs != [] {
      var x, y := |SecretsOf(pairs[0], fields)|, |PairSecrets(pairs[1..], fields)|;
      MaskedPairMarks(pairs[0], fields, uuid, k, b);
      MaskedPairsMarks(pairs[1..], fields, uuid, k + x, b);
      MintedSplit(uuid, k, x, y);
      hide Minted, MaskedPair, MarksOf, SecretsOf;
      assert MaskedPairs(pairs, fields, uuid, k)[1..] == MaskedPairs(pairs[1..], fields, uuid, k + x);
    }
  }

  lemma {:induction false} MaskedItemsMarks(items: seq<Node>, fields: set<string>, uuid: nat -> string, k: nat, b: bool)
    ensures ItemMarks(MaskedItems(items, fields, uuid, k), b) == ItemMarks(items, b) + Counted(b, uuid, k, |ItemSecrets(items, fields)|)
    decreases items, 0
  {
    if items != [] {
      var x, y := |Secrets(items[0], fields)|, |ItemSecrets(items[1..], fields)|;
      MaskedMarks(items[0], fields, uuid, k, b);
      MaskedItemsMarks(items[1..], fields, uuid, k + x, b);
      MintedSplit(uuid, k, x, y);
      hide Minted, Masked, Marks, Secrets;
      assert MaskedItems(items, fields, uuid, k)[1..] == MaskedItems(items[1..], fields, uuid, k + x);
    }
  }

  // Masking a tree without secrets changes nothing.
  lemma {:induction false} NothingToMask(n: Node, fields: set<string>, uuid: nat -> string, k: nat)
    requires Secrets(n, fields) == []
    ensures Masked(n, fields, uuid, k) == n
    decreases n, 0
  {
    match n
    case Leaf(_) =>
    case Map(pairs) => NothingToMaskPairs(pairs, fields, uuid, k);
    case Seq(items) => NothingToMaskItems(items, fields, uuid, k);
  }

  lemma {:induction false} NothingToMaskPairs(pairs: seq<Pair>, fields: set<string>, uuid: nat -> string, k: nat)
    requires PairSecrets(pairs, fields) == []
    ensures MaskedPairs(pairs, fields, uuid, k) == pairs
    decreases pairs, 0
  {
    if pairs != [] {
      NothingToMaskPair(pairs[0], fields, uuid, k);
      NothingToMaskPairs(pairs[1..], fields, uuid, k);
      assert pairs == [pairs[0]] + pairs[1..];
    }
  }

  lemma {:induction false} NothingToMaskPair(pair: Pair, fields: set<string>, uuid: nat -> string, k: nat)
    requires SecretsOf(pair, fields) == []
    ensures MaskedPair(pair, fields, uuid, k) == pair
    decreases pair, 1
  {
    NothingToMask(pair.key, fields, uuid, k);
    NothingToMask(pair.value, fields, uuid, k);
  }

  lemma {:induction false} NothingToMaskItems(items: seq<Node>, fields: set<string>, uuid: nat -> string, k: nat)
    requires ItemSecrets(items, fields) == []
    ensures MaskedItems(items, fields, uuid, k) == items
    decreases items, 0
  {
    if items != [] {
      NothingToMask(items[0], fields, uuid, k);
      NothingToMaskItems(items[1..], fields, uuid, k);
      assert items == [items[0]] + items[1..];
    }
  }

  // ----- when unmasking succeeds, and what it leaves -----

  // No stored value is itself a sentinel.
  ghost predicate PlainValues(values: Values) {
    forall u :: u in values ==> !IsSentinel(values[u])
  }

  // Unmasking succeeds exactly when every sentinel beside a scalar key resolves; then
  // none of those is left, and the others are as they were.
  lemma {:induction false} UnmaskResolves(n: Node, values: Values)
    requires PlainValues(values)
    ensures Unmask(n, values).Ok? <==> Pending(n) <= values.Keys
    ensures Unmask(n, values).Ok? ==> Pending(Unmask(n, values).value) == {} && Stuck(Unmask(n, values).value) == Stuck(n)
    decreases n, 0
  {
    match n
    case Leaf(_) =>
    case Map(pairs) => UnmaskPairsResolves(pairs, values);
    case Seq(items) => UnmaskItemsResolves(items, values);
  }

  lemma {:induction false} UnmaskPairResolves(pair: Pair, values: Values)
    requires PlainValues(values)
    ensures var r := UnmaskPair(pair, values);
            && (r.Ok? <==> MarksOf(pair, true) <= values.Keys)
            && (r.Ok? ==> MarksOf(r.value, true) == {} && MarksOf(r.value, false) == MarksOf(pair, false))
    decreases pair, 1
  {
    if !(pair.key.Leaf? && pair.value.Leaf?) {
      UnmaskResolves(pair.key, values);
      UnmaskResolves(pair.value, values);
      UnmaskShape(pair.key, values);
      UnmaskShape(pair.value, values);
      hide PlainValues;
    }
  }

  lemma UnmaskShape(n: Node, values: Values)
    ensures n.Leaf? ==> Unmask(n, values) == Ok(n)
    ensures !n.Leaf? && Unmask(n, values).Ok? ==> !Unmask(n, values).value.Leaf?
  {
  }

  lemma {:induction false} UnmaskPairsResolves(pairs: seq<Pair>, values: Values)
    requires PlainValues(values)
    ensures var r := UnmaskPairs(pairs, values);
            && (r.Ok? <==> PairMarks(pairs, true) <= values.Keys)
            && (r.Ok? ==> PairMarks(r.value, true) == {} && PairMarks(r.value, false) == PairMarks(pairs, false))
    decreases pairs, 0
  {
    if pairs != [] {
      UnmaskPairResolves(pairs[0], values);
      UnmaskPairsResolves(pairs[1..], values);
      hide UnmaskPair, MarksOf, PlainValues;
      var r := UnmaskPairs(pairs, values);
      if r.Ok? {
        assert r.value[1..] == UnmaskPairs(pairs[1..], values).value;
      }
    }
  }

  lemma {:induction false} UnmaskItemsResolves(items: seq<Node>, values: Values)
    requires PlainValues(values)
    ensures var r := UnmaskItems(items, values);
            && (r.Ok? <==> ItemMarks(items, true) <= values.Keys)
            && (r.Ok? ==> ItemMarks(r.value, true) == {} && ItemMarks(r.value, false) == ItemMarks(items, false))
    decreases items, 0
  {
    if items != [] {
      UnmaskResolves(items[0], values);
      UnmaskItemsResolves(items[1..], values);
      hide Unmask, Marks, PlainValues;
      var r := UnmaskItems(items, values);
      if r.Ok? {
        assert r.value[1..] == UnmaskItems(items[1..], values).value;
      }
    }
  }

  // Unmasking depends only on the values of the sentinels it looks up.
  ghost predicate AgreeOn(uuids: set<string>, a: Values, b: Values) {
    forall u :: u in uuids ==> (u in a <==> u in b) && (u in a ==> a[u] == b[u])
  }

  lemma {:induction false} UnmaskAgree(n: Node, a: Values, b: Values)
    requires AgreeOn(Pending(n), a, b)
    ensures Unmask(n, a) == Unmask(n, b)
    decreases n, 0
  {
    match n
    case Leaf(_) =>
    case Map(pairs) => UnmaskPairsAgree(pairs, a, b);
    case Seq(items) => UnmaskItemsAgree(items, a, b);
  }

  lemma {:induction false} UnmaskPairsAgree(pairs: seq<Pair>, a: Values, b: Values)
    requires AgreeOn(PairMarks(pairs, true), a, b)
    ensures UnmaskPairs(pairs, a) == UnmaskPairs(pairs, b)
    decreases pairs, 0
  {
    if pairs != [] {
      UnmaskPairAgree(pairs[0], a, b);
      UnmaskPairsAgree(pairs[1..], a, b);
    }
  }

  lemma {:induction false} UnmaskPairAgree(pair: Pair, a: Values, b: Values)
    requires AgreeOn(MarksOf(pair, true), a, b)
    ensures UnmaskPair(pair, a) == UnmaskPair(pair, b)
    decreases pair, 1
  {
    UnmaskAgree(pair.key, a, b);
    UnmaskAgree(pair.value, a, b);
  }

  lemma {:induction false} UnmaskItemsAgree(items: seq<Node>, a: Values, b: Values)
    requires AgreeOn(ItemMarks(items, true), a, b)
    ensures UnmaskItems(items, a) == UnmaskItems(items, b)
    decreases items, 0
  {
    if items != [] {
      UnmaskAgree(items[0], a, b);
      UnmaskItemsAgree(items[1..], a, b);
    }
  }

  // Unmasking puts strings under secret keys, and nothing else.
  lemma {:induction false} UnmaskStringSecrets(n: Node, fields: set<string>, values: Values)
    requires StringSecrets(n, fields)
    ensures Unmask(n, values).Ok? ==> StringSecrets(Unmask(n, values).value, fields)
    ensures Unmask(n, values).Ok? ==> (Unmask(n, values).value.Leaf? <==> n.Leaf?)
    decreases n, 0
  {
    match n
    case Leaf(_) =>
    case Map(pairs) => UnmaskPairsStringSecrets(pairs, fields, values);
    case Seq(items) => UnmaskItemsStringSecrets(items, fields, values);
  }

  lemma {:induction false} UnmaskPairStringSecrets(pair: Pair, fields: set<string>, values: Values)
    requires StringSecretsOf(pair, fields)
    ensures UnmaskPair(pair, values).Ok? ==> StringSecretsOf(UnmaskPair(pair, values).value, fields)
    decreases pair, 1
  {
    UnmaskStringSecrets(pair.key, fields, values);
    UnmaskStringSecrets(pair.value, fields, values);
    hide IsSentinel, IsSecretKey;
  }

  lemma {:induction false} UnmaskPairsStringSecrets(pairs: seq<Pair>, fields: set<string>, values: Values)
    requires forall p :: p in pairs ==> StringSecretsOf(p, fields)
    ensures UnmaskPairs(pairs, values).Ok? ==> forall p :: p in UnmaskPairs(pairs, values).value ==> StringSecretsOf(p, fields)
    decreases pairs, 0
  {
    if pairs != [] {
      assert pairs[0] in pairs;
      UnmaskPairStringSecrets(pairs[0], fields, values);
      UnmaskPairsStringSecrets(pairs[1..], fields, values);
      hide UnmaskPair, StringSecretsOf;
    }
  }

  lemma {:induction false} UnmaskItemsStringSecrets(items: seq<Node>, fields: set<string>, values: Values)
    requires forall m :: m in items ==> StringSecrets(m, fields)
    ensures UnmaskItems(items, values).Ok? ==> forall m :: m in UnmaskItems(items, values).value ==> StringSecrets(m, fields)
    decreases items, 0
  {
    if items != [] {
      assert items[0] in items;
      UnmaskStringSecrets(items[0], fields, values);
      UnmaskItemsStringSecrets(items[1..], fields, values);
      hide Unmask, StringSecrets;
    }
  }

  // ----- unmasking that stops -----

  // The document with its sentinels resolved up to the first that is missing; from there
  // on it is as it was.
  function UpTo(n: Node, values: Values): Node
    decreases n, 0
  {
    match n
    case Leaf(_) => n
    case Map(pairs) => Map(PairsUpTo(pairs, values))
    case Seq(items) => Seq(ItemsUpTo(items, values))
  }

  function PairUpTo(pair: Pair, values: Values): Pair
    decreases pair, 1
  {
    if pair.key.Leaf? && pair.value.Leaf? then
      match UnmaskScalar(pair.key.value, pair.value.value, values)
      case Ok(v) => Pair(pair.key, Leaf(v))
      case Err(_) => pair
    else Pair(UpTo(pair.key, values), if Unmask(pair.key, values).Ok? then UpTo(pair.value, values) else pair.value)
  }

  function PairsUpTo(pairs: seq<Pair>, values: Values): seq<Pair>
    decreases pairs, 0
  {
    if pairs == [] then []
    else [PairUpTo(pairs[0], values)] + if UnmaskPair(pairs[0], values).Ok? then PairsUpTo(pairs[1..], values) else pairs[1..]
  }

  function ItemsUpTo(items: seq<Node>, values: Values): seq<Node>
    decreases items, 0
  {
    if items == [] then []
    else [UpTo(items[0], values)] + if Unmask(items[0], values).Ok? then ItemsUpTo(items[1..], values) else items[1..]
  }

  lemma PairsUpToCons(head: Pair, tail: seq<Pair>, values: Values)
    ensures PairsUpTo([head] + tail, values) ==
            [PairUpTo(head, values)] + if UnmaskPair(head, values).Ok? then PairsUpTo(tail, values) else tail
  {
    hide PairUpTo, UnmaskPair;
    assert ([head] + tail)[1..] == tail;
  }

  lemma ItemsUpToCons(head: Node, tail: seq<Node>, values: Values)
    ensures ItemsUpTo([head] + tail, values) ==
            [UpTo(head, values)] + if Unmask(head, values).Ok? then ItemsUpTo(tail, values) else tail
  {
    hide UpTo, Unmask;
    assert ([head] + tail)[1..] == tail;
  }

  // What stopped can be taken up again with more values, as if it had not begun.
  lemma {:induction false} TakenUpAgain(n: Node, values: Values, more: Values)
    requires PlainValues(values) && Extends(values, more)
    ensures Unmask(UpTo(n, values), more) == Unmask(n, more)
    ensures Unmask(n, values).Ok? ==> Unmask(n, values).value == UpTo(n, values) && Unmask(n, more) == Unmask(n, values)
    ensures UpTo(n, values).Leaf? <==> n.Leaf?
    decreases n, 0
  {
    match n
    case Leaf(_) =>
    case Map(pairs) => PairsTakenUpAgain(pairs, values, more);
    case Seq(items) => ItemsTakenUpAgain(items, values, more);
  }

  ghost predicate Extends(values: Values, more: Values) {
    forall u :: u in values ==> u in more && more[u] == values[u]
  }

  lemma {:induction false} PairTakenUpAgain(pair: Pair, values: Values, more: Values)
    requires PlainValues(values) && Extends(values, more)
    ensures UnmaskPair(PairUpTo(pair, values), more) == UnmaskPair(pair, more)
    ensures UnmaskPair(pair, values).Ok? ==> UnmaskPair(pair, values).value == PairUpTo(pair, values) && UnmaskPair(pair, more) == UnmaskPair(pair, values)
    decreases pair, 1
  {
    TakenUpAgain(pair.key, values, more);
    TakenUpAgain(pair.value, values, more);
    hide UpTo, Unmask, IsSentinel;
  }

  lemma {:induction false} PairsTakenUpAgain(pairs: seq<Pair>, values: Values, more: Values)
    requires PlainValues(values) && Extends(values, more)
    ensures UnmaskPairs(PairsUpTo(pairs, values), more) == UnmaskPairs(pairs, more)
    ensures UnmaskPairs(pairs, values).Ok? ==> UnmaskPairs(pairs, values).value == PairsUpTo(pairs, values) && UnmaskPairs(pairs, more) == UnmaskPairs(pairs, values)
    decreases pairs, 0
  {
    if pairs != [] {
      PairTakenUpAgain(pairs[0], values, more);
      PairsTakenUpAgain(pairs[1..], values, more);
      hide PairUpTo, UnmaskPair, PlainValues, Extends;
      assert pairs == [pairs[0]] + pairs[1..];
      UnmaskPairsCons(PairUpTo(pairs[0], values), if UnmaskPair(pairs[0], values).Ok? then PairsUpTo(pairs[1..], values) else pairs[1..], more);
    }
  }

  lemma {:induction false} ItemsTakenUpAgain(items: seq<Node>, values: Values, more: Values)
    requires PlainValues(values) && Extends(values, more)
    ensures UnmaskItems(ItemsUpTo(items, values), more) == UnmaskItems(items, more)
    ensures UnmaskItems(items, values).Ok? ==> UnmaskItems(items, values).value == ItemsUpTo(items, values) && UnmaskItems(items, more) == UnmaskItems(items, values)
    decreases items, 0
  {
    if items != [] {
      TakenUpAgain(items[0], values, more);
      ItemsTakenUpAgain(items[1..], values, more);
      hide UpTo, Unmask, PlainValues, Extends;
      assert items == [items[0]] + items[1..];
      UnmaskItemsCons(UpTo(items[0], values), if Unmask(items[0], values).Ok? then ItemsUpTo(items[1..], values) else items[1..], more);
    }
  }
}
