// Editing a document while its secrets are masked.
module MaskEdit {
  import opened Outcome
  import opened Yaml
  import opened Mask
  import opened MaskLaws

  // ----- edits -----

  // A step into a tree: the key or value of the i-th pair, or the i-th item.
  datatype Step = KeyAt(i: nat) | ValueAt(i: nat) | ItemAt(i: nat)

  // An edited document: subtrees of the old one (kept, moved or copied), placed among
  // new material.
  datatype Template =
    | Keep(path: seq<Step>)
    | NewLeaf(value: Scalar)
    | NewMap(pairs: seq<TemplatePair>)
    | NewSeq(items: seq<Template>)

  datatype TemplatePair = TemplatePair(key: Template, value: Template)

  function Child(n: Node, step: Step): Option<Node> {
    match (n, step)
    case (Map(pairs), KeyAt(i)) => if i < |pairs| then Some(pairs[i].key) else None
    case (Map(pairs), ValueAt(i)) => if i < |pairs| then Some(pairs[i].value) else None
    case (Seq(items), ItemAt(i)) => if i < |items| then Some(items[i]) else None
    case _ => None
  }

  function At(n: Node, path: seq<Step>): Option<Node> {
    if path == [] then Some(n)
    else
      match Child(n, path[0])
      case Some(c) => At(c, path[1..])
      case None => None
  }

  // The path leads to the value of a secret pair.
  predicate SecretAt(n: Node, path: seq<Step>, fields: set<string>) {
    if path == [] then false
    else if |path| == 1 then
      n.Map? && path[0].ValueAt? && path[0].i < |n.pairs| && SecretOf(n.pairs[path[0].i], fields).Some?
    else
      match Child(n, path[0])
      case Some(c) => SecretAt(c, path[1..], fields)
      case None => false
  }

  // Every kept path exists in n.
  predicate Fits(t: Template, n: Node)
    decreases t, 0
  {
    match t
    case Keep(path) => At(n, path).Some?
    case NewLeaf(_) => true
    case NewMap(pairs) => FitsPairs(pairs, n)
    case NewSeq(items) => FitsItems(items, n)
  }

  predicate FitsPairs(pairs: seq<TemplatePair>, n: Node)
    decreases pairs, 0
  {
    pairs != [] ==> FitsPair(pairs[0], n) && FitsPairs(pairs[1..], n)
  }

  predicate FitsPair(pair: TemplatePair, n: Node)
    decreases pair, 1
  {
    Fits(pair.key, n) && Fits(pair.value, n)
  }

  predicate FitsItems(items: seq<Template>, n: Node)
    decreases items, 0
  {
    items != [] ==> Fits(items[0], n) && FitsItems(items[1..], n)
  }

  // The edited document, built on n.
  function Build(t: Template, n: Node): Node
    requires Fits(t, n)
    decreases t, 0
  {
    match t
    case Keep(path) => At(n, path).value
    case NewLeaf(v) => Leaf(v)
    case NewMap(pairs) => Map(BuildPairs(pairs, n))
    case NewSeq(items) => Seq(BuildItems(items, n))
  }

  function BuildPair(pair: TemplatePair, n: Node): Pair
    requires FitsPair(pair, n)
    decreases pair, 1
  {
    Pair(Build(pair.key, n), Build(pair.value, n))
  }

  function BuildPairs(pairs: seq<TemplatePair>, n: Node): seq<Pair>
    requires FitsPairs(pairs, n)
    decreases pairs, 0
  {
    if pairs == [] then [] else [BuildPair(pairs[0], n)] + BuildPairs(pairs[1..], n)
  }

  function BuildItems(items: seq<Template>, n: Node): seq<Node>
    requires FitsItems(items, n)
    decreases items, 0
  {
    if items == [] then [] else [Build(items[0], n)] + BuildItems(items[1..], n)
  }

  // No string anywhere in the tree is a sentinel.
  predicate SentinelFree(n: Node)
    decreases n, 0
  {
    match n
    case Leaf(Str(s)) => !IsSentinel(s)
    case Leaf(_) => true
    case Map(pairs) => forall p :: p in pairs ==> SentinelFree(p.key) && SentinelFree(p.value)
    case Seq(items) => forall m :: m in items ==> SentinelFree(m)
  }

  // The new material holds no sentinels.
  predicate NewSentinelFree(t: Template)
    decreases t, 0
  {
    match t
    case Keep(_) => true
    case NewLeaf(v) => SentinelFree(Leaf(v))
    case NewMap(pairs) => NewPairsSentinelFree(pairs)
    case NewSeq(items) => NewItemsSentinelFree(items)
  }

  predicate NewPairsSentinelFree(pairs: seq<TemplatePair>)
    decreases pairs, 0
  {
    pairs != [] ==> NewPairSentinelFree(pairs[0]) && NewPairsSentinelFree(pairs[1..])
  }

  predicate NewPairSentinelFree(pair: TemplatePair)
    decreases pair, 1
  {
    NewSentinelFree(pair.key) && NewSentinelFree(pair.value)
  }

  predicate NewItemsSentinelFree(items: seq<Template>)
    decreases items, 0
  {
    items != [] ==> NewSentinelFree(items[0]) && NewItemsSentinelFree(items[1..])
  }

  // A bare secret value taken out of its pair is only put beside a scalar key.
  predicate IsBareSecret(t: Template, n: Node, fields: set<string>) {
    t.Keep? && SecretAt(n, t.path, fields)
  }

  predicate SecretsPlaced(t: Template, n: Node, fields: set<string>)
    requires Fits(t, n)
    decreases t, 0
  {
    match t
    case Keep(_) => !IsBareSecret(t, n, fields)
    case NewLeaf(_) => true
    case NewMap(pairs) => SecretsPlacedPairs(pairs, n, fields)
    case NewSeq(items) => SecretsPlacedItems(items, n, fields)
  }

  predicate SecretsPlacedPair(pair: TemplatePair, n: Node, fields: set<string>)
    requires FitsPair(pair, n)
    decreases pair, 1
  {
    && SecretsPlaced(pair.key, n, fields)
    && (if IsBareSecret(pair.value, n, fields) then Build(pair.key, n).Leaf? else SecretsPlaced(pair.value, n, fields))
  }

  predicate SecretsPlacedPairs(pairs: seq<TemplatePair>, n: Node, fields: set<string>)
    requires FitsPairs(pairs, n)
    decreases pairs, 0
  {
    pairs != [] ==> SecretsPlacedPair(pairs[0], n, fields) && SecretsPlacedPairs(pairs[1..], n, fields)
  }

  predicate SecretsPlacedItems(items: seq<Template>, n: Node, fields: set<string>)
    requires FitsItems(items, n)
    decreases items, 0
  {
    items != [] ==> SecretsPlaced(items[0], n, fields) && SecretsPlacedItems(items[1..], n, fields)
  }

  // ----- subtrees of a masked tree -----

  // What masking made of the subtree at a path.
  ghost predicate MaskedAs(m: Node, x: Node, secret: bool, fields: set<string>, uuid: nat -> string, values: Values) {
    && SentinelFree(x) && StringSecrets(x, fields)
    && if secret then
         && x.Leaf? && x.value.Str?
         && m.Leaf? && m.value.Str? && IsSentinel(m.value.s)
         && UuidOf(m.value.s) in values && values[UuidOf(m.value.s)] == x.value.s
       else
         exists j :: Holds(values, Secrets(x, fields), uuid, j) && m == Masked(x, fields, uuid, j)
  }

  lemma {:induction false} MaskedPairAt(pairs: seq<Pair>, i: nat, fields: set<string>, uuid: nat -> string, k: nat, values: Values)
    returns (j: nat)
    requires i < |pairs| && Holds(values, PairSecrets(pairs, fields), uuid, k)
    ensures MaskedPairs(pairs, fields, uuid, k)[i] == MaskedPair(pairs[i], fields, uuid, j)
    ensures Holds(values, SecretsOf(pairs[i], fields), uuid, j)
    decreases |pairs|
  {
    hide MaskedPair, SecretsOf, Holds;
    HoldsSplit(values, SecretsOf(pairs[0], fields), PairSecrets(pairs[1..], fields), uuid, k);
    if i == 0 {
      j := k;
    } else {
      j := MaskedPairAt(pairs[1..], i - 1, fields, uuid, k + |SecretsOf(pairs[0], fields)|, values);
    }
  }

  lemma {:induction false} MaskedItemAt(items: seq<Node>, i: nat, fields: set<string>, uuid: nat -> string, k: nat, values: Values)
    returns (j: nat)
    requires i < |items| && Holds(values, ItemSecrets(items, fields), uuid, k)
    ensures MaskedItems(items, fields, uuid, k)[i] == Masked(items[i], fields, uuid, j)
    ensures Holds(values, Secrets(items[i], fields), uuid, j)
    decreases |items|
  {
    hide Masked, Secrets, Holds;
    HoldsSplit(values, Secrets(items[0], fields), ItemSecrets(items[1..], fields), uuid, k);
    if i == 0 {
      j := k;
    } else {
      j := MaskedItemAt(items[1..], i - 1, fields, uuid, k + |Secrets(items[0], fields)|, values);
    }
  }

  // The key and the value of a masked pair.
  lemma MaskedPairChildren(pair: Pair, fields: set<string>, uuid: nat -> string, j: nat, values: Values)
    requires SentinelFree(pair.key) && SentinelFree(pair.value) && StringSecretsOf(pair, fields)
    requires Holds(values, SecretsOf(pair, fields), uuid, j)
    ensures var m := MaskedPair(pair, fields, uuid, j);
            && MaskedAs(m.key, pair.key, false, fields, uuid, values)
            && MaskedAs(m.value, pair.value, SecretOf(pair, fields).Some?, fields, uuid, values)
  {
    hide Masked, Holds, SentinelFree, StringSecrets, Secrets;
    if SecretOf(pair, fields).Some? {
      SecretPairChild(pair, fields, uuid, j, values);
    } else {
      HoldsSplit(values, Secrets(pair.key, fields), Secrets(pair.value, fields), uuid, j);
    }
  }

  // One step down.
  lemma MaskedChild(n: Node, step: Step, fields: set<string>, uuid: nat -> string, k: nat, values: Values)
    requires SentinelFree(n) && StringSecrets(n, fields) && Holds(values, Secrets(n, fields), uuid, k)
    requires Child(n, step).Some?
    ensures var c := Child(Masked(n, fields, uuid, k), step);
            c.Some? && MaskedAs(c.value, Child(n, step).value, SecretAt(n, [step], fields), fields, uuid, values)
  {
    hide MaskedPair, Holds, SecretsOf, PairSecrets, ItemSecrets, StringSecretsOf, SecretOf, MaskedPairs, MaskedItems;
    match n
    case Map(pairs) =>
      assert pairs[step.i] in pairs;
      var j := MaskedPairAt(pairs, step.i, fields, uuid, k, values);
      MaskedPairChildren(pairs[step.i], fields, uuid, j, values);
      hide MaskedAs, SentinelFree, StringSecrets;
    case Seq(items) =>
      assert items[step.i] in items;
      var j := MaskedItemAt(items, step.i, fields, uuid, k, values);
  }

  lemma SecretPairChild(pair: Pair, fields: set<string>, uuid: nat -> string, j: nat, values: Values)
    requires SecretOf(pair, fields).Some? && StringSecretsOf(pair, fields)
    requires Holds(values, SecretsOf(pair, fields), uuid, j)
    ensures var m := MaskedPair(pair, fields, uuid, j);
            && m.key == pair.key && Masked(pair.key, fields, uuid, j) == pair.key && Secrets(pair.key, fields) == []
            && Holds(values, [], uuid, j)
            && pair.value.Leaf? && pair.value.value.Str?
            && m.value.Leaf? && m.value.value.Str? && IsSentinel(m.value.value.s)
            && UuidOf(m.value.value.s) in values && values[UuidOf(m.value.value.s)] == pair.value.value.s
  {
    SentinelUuid(uuid(j));
  }

  lemma {:induction false} MaskedPath(n: Node, path: seq<Step>, fields: set<string>, uuid: nat -> string, k: nat, values: Values)
    requires SentinelFree(n) && StringSecrets(n, fields) && Holds(values, Secrets(n, fields), uuid, k)
    requires At(n, path).Some?
    ensures var m := At(Masked(n, fields, uuid, k), path);
            m.Some? && MaskedAs(m.value, At(n, path).value, SecretAt(n, path, fields), fields, uuid, values)
    decreases |path|
  {
    if path != [] {
      var c := Child(n, path[0]).value;
      MaskedChild(n, path[0], fields, uuid, k, values);
      var m := Child(Masked(n, fields, uuid, k), path[0]).value;
      hide Masked, Holds, SentinelFree, StringSecrets, Child;
      if |path| == 1 {
        assert path == [path[0]] && path[1..] == [];
      } else if SecretAt(n, [path[0]], fields) {
        LeafHasNoChild(c, path[1]);
      } else {
        var j :| Holds(values, Secrets(c, fields), uuid, j) && m == Masked(c, fields, uuid, j);
        MaskedPath(c, path[1..], fields, uuid, j, values);
      }
    }
  }

  lemma LeafHasNoChild(n: Node, step: Step)
    ensures n.Leaf? ==> Child(n, step).None?
  {
  }

  // Unmasking a kept subtree: exact, unless it is a bare secret outside value position.
  lemma UnmaskKept(m: Node, x: Node, secret: bool, fields: set<string>, uuid: nat -> string, values: Values)
    requires MaskedAs(m, x, secret, fields, uuid, values)
    ensures m.Leaf? <==> x.Leaf?
    ensures secret ==> Unmask(m, values) == Ok(m) && m != x
    ensures !secret ==> Unmask(m, values) == Ok(x) && (x.Leaf? ==> m == x)
  {
    if !secret {
      var j :| Holds(values, Secrets(x, fields), uuid, j) && m == Masked(x, fields, uuid, j);
      UnmaskAfterMask(x, fields, uuid, j, values);
      FreeHasNone(x);
      SentinelsSplit(x);
      UnmaskPlain(x, values);
      MaskedLeaf(x, fields, uuid, j);
    }
  }

  lemma {:induction false} FreeHasNone(n: Node)
    requires SentinelFree(n)
    ensures Sentinels(n) == {}
    decreases n, 0
  {
    match n
    case Leaf(_) =>
    case Map(pairs) => FreePairsHaveNone(pairs);
    case Seq(items) => FreeItemsHaveNone(items);
  }

  lemma {:induction false} FreePairsHaveNone(pairs: seq<Pair>)
    requires forall p :: p in pairs ==> SentinelFree(p.key) && SentinelFree(p.value)
    ensures PairSentinels(pairs) == {}
    decreases pairs, 0
  {
    if pairs != [] {
      assert pairs[0] in pairs;
      FreePairHasNone(pairs[0]);
      FreePairsHaveNone(pairs[1..]);
    }
  }

  lemma {:induction false} FreePairHasNone(pair: Pair)
    requires SentinelFree(pair.key) && SentinelFree(pair.value)
    ensures SentinelsOf(pair) == {}
    decreases pair, 1
  {
    FreeHasNone(pair.key);
    FreeHasNone(pair.value);
  }

  lemma {:induction false} FreeItemsHaveNone(items: seq<Node>)
    requires forall m :: m in items ==> SentinelFree(m)
    ensures ItemSentinels(items) == {}
    decreases items, 0
  {
    if items != [] {
      assert items[0] in items;
      FreeHasNone(items[0]);
      FreeItemsHaveNone(items[1..]);
    }
  }

  // ----- the edit theorem -----

  // n is a document to mask: no sentinels, string secrets, and its secrets stored
  // under uuid(k) onwards.
  ghost predicate Maskable(n: Node, fields: set<string>, uuid: nat -> string, k: nat, values: Values) {
    SentinelFree(n) && StringSecrets(n, fields) && Holds(values, Secrets(n, fields), uuid, k)
  }

  // What the same template builds on the masked tree m and on the plain tree n.
  ghost predicate BuiltAlike(t: Template, m: Node, n: Node, fields: set<string>, values: Values)
    requires Fits(t, m) && Fits(t, n)
  {
    var a, b := Build(t, m), Build(t, n);
    && (a.Leaf? <==> b.Leaf?)
    && (if IsBareSecret(t, n, fields) then
          && a.Leaf? && a.value.Str? && IsSentinel(a.value.s) && a != b
          && b.Leaf? && b.value.Str? && UuidOf(a.value.s) in values && values[UuidOf(a.value.s)] == b.value.s
        else
          a.Leaf? ==> a == b && SentinelFree(a))
    && (Unmask(a, values) == Ok(b) <==> SecretsPlaced(t, n, fields))
  }

  lemma {:induction false} EditTemplate(t: Template, n: Node, fields: set<string>, uuid: nat -> string, k: nat, values: Values)
    requires Maskable(n, fields, uuid, k, values) && Fits(t, n) && NewSentinelFree(t)
    ensures Fits(t, Masked(n, fields, uuid, k)) && BuiltAlike(t, Masked(n, fields, uuid, k), n, fields, values)
    decreases t, 0
  {
    match t
    case Keep(path) =>
      MaskedPath(n, path, fields, uuid, k, values);
      UnmaskKept(At(Masked(n, fields, uuid, k), path).value, At(n, path).value, SecretAt(n, path, fields), fields, uuid, values);
    case NewLeaf(v) =>
    case NewMap(pairs) => EditPairs(pairs, n, fields, uuid, k, values);
    case NewSeq(items) => EditItems(items, n, fields, uuid, k, values);
  }

  lemma {:induction false} EditPair(pair: TemplatePair, n: Node, fields: set<string>, uuid: nat -> string, k: nat, values: Values)
    requires Maskable(n, fields, uuid, k, values) && FitsPair(pair, n) && NewPairSentinelFree(pair)
    ensures FitsPair(pair, Masked(n, fields, uuid, k))
    ensures UnmaskPair(BuildPair(pair, Masked(n, fields, uuid, k)), values) == Ok(BuildPair(pair, n))
            <==> SecretsPlacedPair(pair, n, fields)
    decreases pair, 1
  {
    EditTemplate(pair.key, n, fields, uuid, k, values);
    EditTemplate(pair.value, n, fields, uuid, k, values);
    PairAlike(pair, Masked(n, fields, uuid, k), n, fields, values);
  }

  lemma PairAlike(pair: TemplatePair, m: Node, n: Node, fields: set<string>, values: Values)
    requires FitsPair(pair, m) && FitsPair(pair, n)
    requires BuiltAlike(pair.key, m, n, fields, values) && BuiltAlike(pair.value, m, n, fields, values)
    ensures UnmaskPair(BuildPair(pair, m), values) == Ok(BuildPair(pair, n)) <==> SecretsPlacedPair(pair, n, fields)
  {
    LeavesUnmask(pair.key, m, n, fields, values);
    LeavesUnmask(pair.value, m, n, fields, values);
    hide Build, Fits, SecretsPlaced, IsBareSecret, Unmask, SentinelFree;
  }

  lemma LeavesUnmask(t: Template, m: Node, n: Node, fields: set<string>, values: Values)
    requires Fits(t, m) && Fits(t, n) && BuiltAlike(t, m, n, fields, values)
    ensures var a, b := Build(t, m), Build(t, n);
            a.Leaf? ==>
              && Unmask(a, values) == Ok(a)
              && (!IsBareSecret(t, n, fields) ==> a == b && (a.value.Str? ==> !IsSentinel(a.value.s)))
              && (SecretsPlaced(t, n, fields) <==> !IsBareSecret(t, n, fields))
  {
    hide Build, Fits;
  }

  lemma {:induction false} EditPairs(pairs: seq<TemplatePair>, n: Node, fields: set<string>, uuid: nat -> string, k: nat, values: Values)
    requires Maskable(n, fields, uuid, k, values) && FitsPairs(pairs, n) && NewPairsSentinelFree(pairs)
    ensures FitsPairs(pairs, Masked(n, fields, uuid, k))
    ensures UnmaskPairs(BuildPairs(pairs, Masked(n, fields, uuid, k)), values) == Ok(BuildPairs(pairs, n))
            <==> SecretsPlacedPairs(pairs, n, fields)
    decreases pairs, 0
  {
    if pairs != [] {
      EditPair(pairs[0], n, fields, uuid, k, values);
      EditPairs(pairs[1..], n, fields, uuid, k, values);
      hide Maskable, Masked, BuildPair, SecretsPlacedPair, FitsPair, NewPairSentinelFree, UnmaskPair;
      var m := Masked(n, fields, uuid, k);
      UnmaskPairsCons(BuildPair(pairs[0], m), BuildPairs(pairs[1..], m), values);
      ConsSplit(BuildPair(pairs[0], n), BuildPairs(pairs[1..], n));
      if UnmaskPair(BuildPair(pairs[0], m), values).Ok? && UnmaskPairs(BuildPairs(pairs[1..], m), values).Ok? {
        ConsSplit(UnmaskPair(BuildPair(pairs[0], m), values).value, UnmaskPairs(BuildPairs(pairs[1..], m), values).value);
      }
    }
  }

  lemma ConsSplit<T>(first: T, rest: seq<T>)
    ensures ([first] + rest)[0] == first && ([first] + rest)[1..] == rest
  {
  }

  lemma {:induction false} EditItems(items: seq<Template>, n: Node, fields: set<string>, uuid: nat -> string, k: nat, values: Values)
    requires Maskable(n, fields, uuid, k, values) && FitsItems(items, n) && NewItemsSentinelFree(items)
    ensures FitsItems(items, Masked(n, fields, uuid, k))
    ensures UnmaskItems(BuildItems(items, Masked(n, fields, uuid, k)), values) == Ok(BuildItems(items, n))
            <==> SecretsPlacedItems(items, n, fields)
    decreases items, 0
  {
    if items != [] {
      EditTemplate(items[0], n, fields, uuid, k, values);
      EditItems(items[1..], n, fields, uuid, k, values);
      hide Maskable, Masked, Build, SecretsPlaced, Fits, NewSentinelFree, Unmask;
      var m := Masked(n, fields, uuid, k);
      UnmaskItemsCons(Build(items[0], m), BuildItems(items[1..], m), values);
      ConsSplit(Build(items[0], n), BuildItems(items[1..], n));
      if Unmask(Build(items[0], m), values).Ok? && UnmaskItems(BuildItems(items[1..], m), values).Ok? {
        ConsSplit(Unmask(Build(items[0], m), values).value, UnmaskItems(BuildItems(items[1..], m), values).value);
      }
    }
  }

  // ----- documents with other secrets than strings -----

  lemma {:induction false} FreeCoerced(n: Node, fields: set<string>)
    requires SentinelFree(n)
    ensures SentinelFree(Coerced(n, fields))
    decreases n, 0
  {
    match n
    case Leaf(_) =>
    case Map(pairs) => FreeCoercedPairs(pairs, fields);
    case Seq(items) => FreeCoercedItems(items, fields);
  }

  lemma {:induction false} FreeCoercedPairs(pairs: seq<Pair>, fields: set<string>)
    requires forall p :: p in pairs ==> SentinelFree(p.key) && SentinelFree(p.value)
    ensures forall p :: p in CoercedPairs(pairs, fields) ==> SentinelFree(p.key) && SentinelFree(p.value)
    decreases pairs, 0
  {
    if pairs != [] {
      assert pairs[0] in pairs;
      FreeCoercedPair(pairs[0], fields);
      FreeCoercedPairs(pairs[1..], fields);
    }
  }

  lemma {:induction false} FreeCoercedPair(pair: Pair, fields: set<string>)
    requires SentinelFree(pair.key) && SentinelFree(pair.value)
    ensures var c := CoercedPair(pair, fields); SentinelFree(c.key) && SentinelFree(c.value)
    decreases pair, 1
  {
    FreeCoerced(pair.key, fields);
    FreeCoerced(pair.value, fields);
  }

  lemma {:induction false} FreeCoercedItems(items: seq<Node>, fields: set<string>)
    requires forall m :: m in items ==> SentinelFree(m)
    ensures forall m :: m in CoercedItems(items, fields) ==> SentinelFree(m)
    decreases items, 0
  {
    if items != [] {
      assert items[0] in items;
      FreeCoerced(items[0], fields);
      FreeCoercedItems(items[1..], fields);
    }
  }

  lemma {:induction false} CoercedPairAt(pairs: seq<Pair>, i: nat, fields: set<string>)
    requires i < |pairs|
    ensures CoercedPairs(pairs, fields)[i] == CoercedPair(pairs[i], fields)
    decreases |pairs|
  {
    if i > 0 {
      CoercedPairAt(pairs[1..], i - 1, fields);
    }
  }

  lemma {:induction false} CoercedItemAt(items: seq<Node>, i: nat, fields: set<string>)
    requires i < |items|
    ensures CoercedItems(items, fields)[i] == Coerced(items[i], fields)
    decreases |items|
  {
    if i > 0 {
      CoercedItemAt(items[1..], i - 1, fields);
    }
  }

  lemma CoercedSecretOf(pair: Pair, fields: set<string>)
    ensures SecretOf(CoercedPair(pair, fields), fields) == SecretOf(pair, fields)
    ensures CoercedPair(pair, fields).key == Coerced(pair.key, fields)
    ensures SecretOf(pair, fields).Some? ==> pair.value.Leaf? && CoercedPair(pair, fields).value.Leaf?
    ensures SecretOf(pair, fields).None? ==> CoercedPair(pair, fields).value == Coerced(pair.value, fields)
  {
    CoercedLeaf(pair.key, fields);
    CoercedLeaf(pair.value, fields);
    hide IsSecretKey;
  }

  // One step down: the same child, coerced, unless it is the value of a secret.
  lemma CoercedChild(n: Node, step: Step, fields: set<string>)
    ensures var c := Coerced(n, fields);
            && SecretAt(c, [step], fields) == SecretAt(n, [step], fields)
            && Child(c, step).Some? == Child(n, step).Some?
            && (Child(n, step).Some? ==>
                  if SecretAt(n, [step], fields) then Child(n, step).value.Leaf? && Child(c, step).value.Leaf?
                  else Child(c, step).value == Coerced(Child(n, step).value, fields))
  {
    hide SecretOf, CoercedPair;
    match n
    case Leaf(_) =>
    case Map(pairs) =>
      if !step.ItemAt? && step.i < |pairs| {
        CoercedPairAt(pairs, step.i, fields);
        CoercedSecretOf(pairs[step.i], fields);
      }
    case Seq(items) =>
      if step.ItemAt? && step.i < |items| {
        CoercedItemAt(items, step.i, fields);
      }
  }

  lemma {:induction false} CoercedPath(n: Node, path: seq<Step>, fields: set<string>)
    requires At(n, path).Some?
    ensures var c := Coerced(n, fields);
            && At(c, path).Some? && SecretAt(c, path, fields) == SecretAt(n, path, fields)
            && (At(c, path).value.Leaf? <==> At(n, path).value.Leaf?)
    decreases |path|
  {
    CoercedLeaf(n, fields);
    if path != [] {
      var child := Child(n, path[0]).value;
      CoercedChild(n, path[0], fields);
      hide Coerced, Child, SecretOf;
      if |path| == 1 {
        assert path == [path[0]] && path[1..] == [];
        CoercedLeaf(child, fields);
      } else {
        LeafHasNoChild(child, path[1]);
        CoercedPath(child, path[1..], fields);
      }
    }
  }

  lemma {:induction false} CoercedTemplate(t: Template, n: Node, fields: set<string>)
    requires Fits(t, n)
    ensures var c := Coerced(n, fields);
            && Fits(t, c) && (Build(t, c).Leaf? <==> Build(t, n).Leaf?)
            && IsBareSecret(t, c, fields) == IsBareSecret(t, n, fields)
            && SecretsPlaced(t, c, fields) == SecretsPlaced(t, n, fields)
    decreases t, 0
  {
    match t
    case Keep(path) => CoercedPath(n, path, fields);
    case NewLeaf(v) =>
    case NewMap(pairs) => CoercedTemplatePairs(pairs, n, fields);
    case NewSeq(items) => CoercedTemplateItems(items, n, fields);
  }

  lemma {:induction false} CoercedTemplatePair(pair: TemplatePair, n: Node, fields: set<string>)
    requires FitsPair(pair, n)
    ensures FitsPair(pair, Coerced(n, fields)) && SecretsPlacedPair(pair, Coerced(n, fields), fields) == SecretsPlacedPair(pair, n, fields)
    decreases pair, 1
  {
    CoercedTemplate(pair.key, n, fields);
    CoercedTemplate(pair.value, n, fields);
    hide IsBareSecret, SecretsPlaced, Build, Fits, Coerced;
  }

  lemma {:induction false} CoercedTemplatePairs(pairs: seq<TemplatePair>, n: Node, fields: set<string>)
    requires FitsPairs(pairs, n)
    ensures FitsPairs(pairs, Coerced(n, fields)) && SecretsPlacedPairs(pairs, Coerced(n, fields), fields) == SecretsPlacedPairs(pairs, n, fields)
    decreases pairs, 0
  {
    if pairs != [] {
      CoercedTemplatePair(pairs[0], n, fields);
      CoercedTemplatePairs(pairs[1..], n, fields);
    }
  }

  lemma {:induction false} CoercedTemplateItems(items: seq<Template>, n: Node, fields: set<string>)
    requires FitsItems(items, n)
    ensures FitsItems(items, Coerced(n, fields)) && SecretsPlacedItems(items, Coerced(n, fields), fields) == SecretsPlacedItems(items, n, fields)
    decreases items, 0
  {
    if items != [] {
      CoercedTemplate(items[0], n, fields);
      CoercedTemplateItems(items[1..], n, fields);
    }
  }

  // Editing under the mask: mask, edit, unmask gives the same edit of the plain document,
  // its secret scalars turned into strings, exactly when no bare secret value is moved
  // away from a scalar key.
  lemma EditUnderMask(t: Template, n: Node, fields: set<string>, uuid: nat -> string, k: nat, values: Values)
    requires SentinelFree(n) && Holds(values, Secrets(n, fields), uuid, k) && Fits(t, n) && NewSentinelFree(t)
    ensures Fits(t, Masked(n, fields, uuid, k)) && Fits(t, Coerced(n, fields))
    ensures Unmask(Build(t, Masked(n, fields, uuid, k)), values) == Ok(Build(t, Coerced(n, fields))) <==> SecretsPlaced(t, n, fields)
    ensures StringSecrets(n, fields) <==> Coerced(n, fields) == n
  {
    hide Masked, Secrets, Fits, Build, Unmask, SecretsPlaced, NewSentinelFree, StringSecrets, Holds, SentinelFree;
    var c := Coerced(n, fields);
    FreeCoerced(n, fields);
    CoercedMasks(n, fields, uuid, k);
    CoercedTemplate(t, n, fields);
    EditTemplate(t, c, fields, uuid, k, values);
    CoercedIff(n, fields);
  }

  // A password moved out of its pair into a list: the sentinel stays.
  lemma BareSecretStaysMasked(fields: set<string>, uuid: nat -> string, k: nat, values: Values)
    requires fields == DEFAULT_SECRET_FIELDS && uuid(k) in values && values[uuid(k)] == "pw"
    ensures var n, t := Map([Pair(Leaf(Str("password")), Leaf(Str("pw")))]), NewSeq([Keep([ValueAt(0)])]);
            && Fits(t, n) && Fits(t, Masked(n, fields, uuid, k)) && !SecretsPlaced(t, n, fields)
            && Build(t, n) == Seq([Leaf(Str("pw"))])
            && Unmask(Build(t, Masked(n, fields, uuid, k)), values) == Ok(Seq([Leaf(Str(Sentinel(uuid(k))))]))
  {
    var pair, t := Pair(Leaf(Str("password")), Leaf(Str("pw"))), Keep([ValueAt(0)]);
    var hidden := Pair(Leaf(Str("password")), Leaf(Str(Sentinel(uuid(k)))));
    var n := Map([pair]);
    assert !IsSentinel("pw");
    hide IsSentinel, Sentinel, UuidOf;
    assert [pair][1..] == [] && [ValueAt(0)][1..] == [] && [t][1..] == [];
    assert SecretOf(pair, fields) == Some("pw");
    assert MaskedPair(pair, fields, uuid, k) == hidden;
    assert MaskedPairs([], fields, uuid, k + 1) == [];
    assert Masked(n, fields, uuid, k) == Map([hidden]) by {
      assert MaskedPairs([pair], fields, uuid, k) == [hidden];
    }
    FirstValue(n, pair.value);
    FirstValue(Map([hidden]), hidden.value);
    assert SecretAt(n, [ValueAt(0)], fields);
    assert UnmaskItems([hidden.value], values) == Ok([hidden.value]) by {
      assert [hidden.value][1..] == [];
      assert UnmaskItems([], values) == Ok([]);
    }
  }

  lemma FirstValue(n: Node, v: Node)
    requires n.Map? && n.pairs != [] && n.pairs[0].value == v
    ensures var t := NewSeq([Keep([ValueAt(0)])]); Fits(t, n) && Build(t, n) == Seq([v])
  {
    var t := Keep([ValueAt(0)]);
    assert [ValueAt(0)][1..] == [] && [t][1..] == [];
    assert Child(n, ValueAt(0)) == Some(v);
    assert At(n, [ValueAt(0)]) == Some(v);
    assert FitsItems([], n) && FitsItems([t], n);
    assert BuildItems([t], n) == [v] + BuildItems([], n);
  }
}
