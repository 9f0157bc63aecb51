// "Keep the existing value" markers of the read-only views, and their substitution at
// deploy time (packages/shared/src/types/sentinels.ts, resolveViewSentinels in
// apps/server/src/deploy/pipeline.ts).
module ViewSentinels {
  import opened Outcome
  import opened Yaml
  import opened YamlTree
  import opened MaskLaws

  const META_SECRET_SENTINEL: string := "__MIHARBOR_SECRET_SET_NOT_SHOWN__"
  const WIREGUARD_PRIVATE_KEY_SENTINEL: string := "MIHARBORMASKEDPRIVATEKEYREENTERTOCHANGE1234="
  const WIREGUARD_PRE_SHARED_KEY_SENTINEL: string := "MIHARBORMASKEDPRESHAREDKEYREENTERTOCHANGE12="

  // ----- specification -----

  // The marker that stands for a value at a key of a proxy entry.
  function Expected(key: string): Option<string> {
    if key == "private-key" then Some(WIREGUARD_PRIVATE_KEY_SENTINEL)
    else if key == "pre-shared-key" then Some(WIREGUARD_PRE_SHARED_KEY_SENTINEL)
    else None
  }

  function RootGet(n: Node, key: string): Option<Node> {
    match n
    case Map(pairs) => Get(pairs, key)
    case _ => None
  }

  // The entries of a proxy list by name; a later entry replaces an earlier one.
  function ByName(items: seq<Node>): map<string, seq<Pair>> {
    if items == [] then map[]
    else
      var last := items[|items| - 1];
      var rest := ByName(items[..|items| - 1]);
      if last.Map? && GetString(last.pairs, "name").Some? && GetString(last.pairs, "name").value != ""
      then rest[GetString(last.pairs, "name").value := last.pairs]
      else rest
  }

  function ResolvedKey(p: Pair, current: seq<Pair>): Pair {
    if p.key.Leaf? && p.value.Leaf? && p.value.value.Str?
       && Expected(KeyText(p.key.value)) == Some(p.value.value.s)
       && GetString(current, KeyText(p.key.value)).Some?
    then Pair(p.key, Leaf(Str(GetString(current, KeyText(p.key.value)).value)))
    else p
  }

  function ResolvedKeys(pairs: seq<Pair>, current: seq<Pair>): (r: seq<Pair>) {
    if pairs == [] then [] else [ResolvedKey(pairs[0], current)] + ResolvedKeys(pairs[1..], current)
  }

  function ResolvedItem(item: Node, byName: map<string, seq<Pair>>): Node {
    if item.Map? && GetString(item.pairs, "name").Some? && GetString(item.pairs, "name").value in byName
    then Map(ResolvedKeys(item.pairs, byName[GetString(item.pairs, "name").value]))
    else item
  }

  function ResolvedItems(items: seq<Node>, byName: map<string, seq<Pair>>): seq<Node> {
    if items == [] then [] else [ResolvedItem(items[0], byName)] + ResolvedItems(items[1..], byName)
  }

  // The value at the first pair with the given key, rewritten.
  function ResolvedSecret(n: Node, secret: string): Node {
    if n == Leaf(Str(META_SECRET_SENTINEL)) then Leaf(Str(secret)) else n
  }

  function ResolvedProxies(n: Node, byName: map<string, seq<Pair>>): Node {
    if n.Seq? then Seq(ResolvedItems(n.items, byName)) else n
  }

  function AtSecret(pairs: seq<Pair>, secret: string): seq<Pair> {
    if pairs == [] then []
    else if pairs[0].key == Leaf(Str("secret")) then [Pair(pairs[0].key, ResolvedSecret(pairs[0].value, secret))] + pairs[1..]
    else [pairs[0]] + AtSecret(pairs[1..], secret)
  }

  function AtProxies(pairs: seq<Pair>, byName: map<string, seq<Pair>>): seq<Pair> {
    if pairs == [] then []
    else if pairs[0].key == Leaf(Str("proxies")) then [Pair(pairs[0].key, ResolvedProxies(pairs[0].value, byName))] + pairs[1..]
    else [pairs[0]] + AtProxies(pairs[1..], byName)
  }

  function SecretResolved(pairs: seq<Pair>, current: Node): seq<Pair> {
    match RootGet(current, "secret")
    case Some(Leaf(Str(secret))) => AtSecret(pairs, secret)
    case _ => pairs
  }

  function ProxiesResolved(pairs: seq<Pair>, current: Node): seq<Pair> {
    match RootGet(current, "proxies")
    case Some(Seq(items)) => AtProxies(pairs, ByName(items))
    case _ => pairs
  }

  // The draft with every marker replaced by the current value it stands for.
  function ResolveView(draft: Node, current: Node): Node {
    match draft
    case Map(pairs) => Map(ProxiesResolved(SecretResolved(pairs, current), current))
    case _ => draft
  }

  // ----- the substitution in place -----

  method ResolveViewSentinels(draft: Tree, current: Node)
    requires Separate(draft) && allocated(Nodes(draft))
    modifies Nodes(draft)
    ensures View(draft) == ResolveView(old(View(draft)), current)
  {
    if draft.MapTree? {
      hide AtSecret, AtProxies;
      match RootGet(current, "secret") {
        case Some(Leaf(Str(secret))) => PutSecret(draft.pairs, secret);
        case _ =>
      }
      match RootGet(current, "proxies") {
        case Some(Seq(items)) =>
          var byName := IndexByName(items);
          PutProxies(draft.pairs, byName);
        case _ =>
      }
    }
  }

  method IndexByName(items: seq<Node>) returns (byName: map<string, seq<Pair>>)
    ensures byName == ByName(items)
  {
    byName := map[];
    for i := 0 to |items|
      invariant byName == ByName(items[..i])
    {
      assert items[..i + 1][..i] == items[..i];
      if items[i].Map? {
        var name := GetString(items[i].pairs, "name");
        if name.Some? && |name.value| > 0 {
          byName := byName[name.value := items[i].pairs];
        }
      }
    }
    assert items[..|items|] == items;
  }

  method PutSecret(pairs: seq<PairTree>, secret: string)
    requires PairsSeparate(pairs) && allocated(PairsNodes(pairs))
    modifies PairsNodes(pairs)
    ensures PairsView(pairs) == AtSecret(old(PairsView(pairs)), secret)
  {
    if pairs == [] {
      return;
    }
    ghost var head, tail := PairView(pairs[0]), PairsView(pairs[1..]);
    AtSecretCons(head, tail, secret);
    hide AtSecret, PairView, PairNodes, PairSeparate, View;
    var atKey := HasKey(pairs[0], "secret");
    if atKey {
      PutSecretAt(pairs[0], secret);
      assert PairsView(pairs[1..]) == tail;
    } else {
      PutSecret(pairs[1..], secret);
      assert PairView(pairs[0]) == head;
    }
  }

  method HasKey(p: PairTree, key: string) returns (r: bool)
    ensures r == (PairView(p).key == Leaf(Str(key)))
  {
    r := p.key.ScalarTree? && p.key.node.value == Str(key);
  }

  method PutSecretAt(p: PairTree, secret: string)
    requires PairSeparate(p) && allocated(PairNodes(p))
    modifies PairNodes(p)
    ensures PairView(p) == Pair(old(PairView(p)).key, ResolvedSecret(old(PairView(p)).value, secret))
  {
    if p.value.ScalarTree? && p.value.node.value == Str(META_SECRET_SENTINEL) {
      p.value.node.value := Str(secret);
    }
    assert View(p.key) == old(View(p.key));
  }

  lemma AtSecretCons(head: Pair, tail: seq<Pair>, secret: string)
    ensures AtSecret([head] + tail, secret) ==
            if head.key == Leaf(Str("secret")) then [Pair(head.key, ResolvedSecret(head.value, secret))] + tail
            else [head] + AtSecret(tail, secret)
  {
    assert ([head] + tail)[1..] == tail;
  }

  lemma AtProxiesCons(head: Pair, tail: seq<Pair>, byName: map<string, seq<Pair>>)
    ensures AtProxies([head] + tail, byName) ==
            if head.key == Leaf(Str("proxies")) then [Pair(head.key, ResolvedProxies(head.value, byName))] + tail
            else [head] + AtProxies(tail, byName)
  {
    hide ResolvedProxies;
    assert ([head] + tail)[1..] == tail;
  }

  lemma ResolvedItemsCons(head: Node, tail: seq<Node>, byName: map<string, seq<Pair>>)
    ensures ResolvedItems([head] + tail, byName) == [ResolvedItem(head, byName)] + ResolvedItems(tail, byName)
  {
    hide ResolvedItem;
    assert ([head] + tail)[1..] == tail;
  }

  lemma ResolvedKeysCons(head: Pair, tail: seq<Pair>, current: seq<Pair>)
    ensures ResolvedKeys([head] + tail, current) == [ResolvedKey(head, current)] + ResolvedKeys(tail, current)
  {
    hide ResolvedKey;
    assert ([head] + tail)[1..] == tail;
  }

  method PutProxies(pairs: seq<PairTree>, byName: map<string, seq<Pair>>)
    requires PairsSeparate(pairs) && allocated(PairsNodes(pairs))
    modifies PairsNodes(pairs)
    ensures PairsView(pairs) == AtProxies(old(PairsView(pairs)), byName)
  {
    if pairs == [] {
      return;
    }
    ghost var head, tail := PairView(pairs[0]), PairsView(pairs[1..]);
    AtProxiesCons(head, tail, byName);
    hide AtProxies, PairView, PairNodes, PairSeparate, View;
    var atKey := HasKey(pairs[0], "proxies");
    if atKey {
      PutProxiesAt(pairs[0], byName);
      assert PairsView(pairs[1..]) == tail;
    } else {
      PutProxies(pairs[1..], byName);
      assert PairView(pairs[0]) == head;
    }
  }

  method PutProxiesAt(p: PairTree, byName: map<string, seq<Pair>>)
    requires PairSeparate(p) && allocated(PairNodes(p))
    modifies PairNodes(p)
    ensures PairView(p) == Pair(old(PairView(p)).key, ResolvedProxies(old(PairView(p)).value, byName))
  {
    hide ResolvedItems;
    if p.value.SeqTree? {
      assert ItemsSeparate(p.value.items) && Nodes(p.value) == ItemsNodes(p.value.items);
      PutItems(p.value.items, byName);
    }
    assert View(p.key) == old(View(p.key));
  }

  method PutItems(items: seq<Tree>, byName: map<string, seq<Pair>>)
    requires ItemsSeparate(items) && allocated(ItemsNodes(items))
    modifies ItemsNodes(items)
    ensures ItemsView(items) == ResolvedItems(old(ItemsView(items)), byName)
  {
    if items == [] {
      return;
    }
    hide ResolvedItem, ResolvedItems, View, Nodes, Separate;
    ghost var head, tail := View(items[0]), ItemsView(items[1..]);
    ResolvedItemsCons(head, tail, byName);
    PutItem(items[0], byName);
    assert ItemsView(items[1..]) == tail;
    PutItems(items[1..], byName);
    assert View(items[0]) == ResolvedItem(head, byName);
  }

  method PutItem(item: Tree, byName: map<string, seq<Pair>>)
    requires Separate(item) && allocated(Nodes(item))
    modifies Nodes(item)
    ensures View(item) == ResolvedItem(old(View(item)), byName)
  {
    if item.MapTree? {
      var name := GetString(PairsView(item.pairs), "name");
      if name.Some? && name.value in byName {
        PutKeys(item.pairs, byName[name.value]);
      }
    }
  }

  method PutKeys(pairs: seq<PairTree>, current: seq<Pair>)
    requires PairsSeparate(pairs) && allocated(PairsNodes(pairs))
    modifies PairsNodes(pairs)
    ensures PairsView(pairs) == ResolvedKeys(old(PairsView(pairs)), current)
  {
    if pairs == [] {
      return;
    }
    hide ResolvedKey, ResolvedKeys, PairView, PairNodes, PairSeparate;
    ghost var head, tail := PairView(pairs[0]), PairsView(pairs[1..]);
    ResolvedKeysCons(head, tail, current);
    PutKey(pairs[0], current);
    assert PairsView(pairs[1..]) == tail;
    PutKeys(pairs[1..], current);
    assert PairView(pairs[0]) == ResolvedKey(head, current);
  }

  method PutKey(p: PairTree, current: seq<Pair>)
    requires PairSeparate(p) && allocated(PairNodes(p))
    modifies PairNodes(p)
    ensures PairView(p) == ResolvedKey(old(PairView(p)), current)
  {
    if p.key.ScalarTree? && p.value.ScalarTree? && p.value.node.value.Str? {
      var key := KeyText(p.key.node.value);
      if Expected(key) == Some(p.value.node.value.s) {
        var value := GetString(current, key);
        if value.Some? {
          p.value.node.value := Str(value.value);
        }
      }
    }
  }

  // ----- documents without markers -----

  predicate Unmarked(p: Pair) {
    p.key.Leaf? && p.value.Leaf? ==> Expected(KeyText(p.key.value)) != Some(KeyText(p.value.value))
  }

  predicate UnmarkedPairs(pairs: seq<Pair>) {
    pairs != [] ==> Unmarked(pairs[0]) && UnmarkedPairs(pairs[1..])
  }

  predicate UnmarkedItems(items: seq<Node>) {
    items != [] ==> (items[0].Map? ==> UnmarkedPairs(items[0].pairs)) && UnmarkedItems(items[1..])
  }

  predicate UnmarkedRoot(p: Pair) {
    && (p.key == Leaf(Str("secret")) && p.value.Leaf? ==> KeyText(p.value.value) != META_SECRET_SENTINEL)
    && (p.key == Leaf(Str("proxies")) && p.value.Seq? ==> UnmarkedItems(p.value.items))
  }

  predicate UnmarkedRoots(pairs: seq<Pair>) {
    pairs != [] ==> UnmarkedRoot(pairs[0]) && UnmarkedRoots(pairs[1..])
  }

  // No marker stands where the substitution looks.
  predicate MarkerFree(n: Node) {
    n.Map? ==> UnmarkedRoots(n.pairs)
  }

  lemma {:induction false} KeysUnmarked(pairs: seq<Pair>, current: seq<Pair>)
    requires UnmarkedPairs(pairs)
    ensures ResolvedKeys(pairs, current) == pairs
  {
    if pairs != [] {
      KeysUnmarked(pairs[1..], current);
    }
  }

  lemma {:induction false} ItemsUnmarked(items: seq<Node>, byName: map<string, seq<Pair>>)
    requires UnmarkedItems(items)
    ensures ResolvedItems(items, byName) == items
  {
    if items != [] {
      ItemsUnmarked(items[1..], byName);
      if items[0].Map? && GetString(items[0].pairs, "name").Some? && GetString(items[0].pairs, "name").value in byName {
        KeysUnmarked(items[0].pairs, byName[GetString(items[0].pairs, "name").value]);
      }
    }
  }

  lemma {:induction false} RootsUnmarked(pairs: seq<Pair>, secret: string, byName: map<string, seq<Pair>>)
    requires UnmarkedRoots(pairs)
    ensures AtSecret(pairs, secret) == pairs && AtProxies(pairs, byName) == pairs
  {
    if pairs != [] {
      RootsUnmarked(pairs[1..], secret, byName);
      if pairs[0].value.Seq? && pairs[0].key == Leaf(Str("proxies")) {
        ItemsUnmarked(pairs[0].value.items, byName);
      }
    }
  }

  // A document without markers is deployed as it is, whatever the current one holds.
  lemma MarkerFreeUnchanged(draft: Node, current: Node)
    requires MarkerFree(draft)
    ensures ResolveView(draft, current) == draft
  {
    if draft.Map? {
      var secret := match RootGet(current, "secret") case Some(Leaf(Str(s))) => s case _ => "";
      var byName := match RootGet(current, "proxies") case Some(Seq(items)) => ByName(items) case _ => map[];
      RootsUnmarked(draft.pairs, secret, byName);
    }
  }

  // Coercing secret scalars to strings puts no marker in.
  lemma CoercedShape(n: Node, fields: set<string>)
    ensures n.Leaf? ==> Coerced(n, fields) == n
    ensures n.Map? ==> Coerced(n, fields) == Map(CoercedPairs(n.pairs, fields))
    ensures n.Seq? ==> Coerced(n, fields) == Seq(CoercedItems(n.items, fields))
  {
  }

  lemma {:induction false} CoercedUnmarkedPairs(pairs: seq<Pair>, fields: set<string>)
    requires UnmarkedPairs(pairs)
    ensures UnmarkedPairs(CoercedPairs(pairs, fields))
    decreases pairs
  {
    if pairs != [] {
      CoercedUnmarkedPairs(pairs[1..], fields);
      CoercedShape(pairs[0].key, fields);
      CoercedShape(pairs[0].value, fields);
      hide Coerced;
      assert CoercedPairs(pairs, fields)[1..] == CoercedPairs(pairs[1..], fields);
    }
  }

  lemma {:induction false} CoercedUnmarkedItems(items: seq<Node>, fields: set<string>)
    requires UnmarkedItems(items)
    ensures UnmarkedItems(CoercedItems(items, fields))
    decreases items
  {
    if items != [] {
      CoercedUnmarkedItems(items[1..], fields);
      CoercedShape(items[0], fields);
      if items[0].Map? {
        CoercedUnmarkedPairs(items[0].pairs, fields);
      }
      hide Coerced, UnmarkedPairs;
      assert CoercedItems(items, fields)[1..] == CoercedItems(items[1..], fields);
    }
  }

  lemma CoercedUnmarkedRoot(p: Pair, fields: set<string>)
    requires UnmarkedRoot(p)
    ensures UnmarkedRoot(CoercedPair(p, fields))
  {
    CoercedShape(p.key, fields);
    CoercedShape(p.value, fields);
    if p.value.Seq? && p.key == Leaf(Str("proxies")) {
      CoercedUnmarkedItems(p.value.items, fields);
    }
    hide Coerced, CoercedItems, UnmarkedItems;
  }

  lemma {:induction false} CoercedUnmarkedRoots(pairs: seq<Pair>, fields: set<string>)
    requires UnmarkedRoots(pairs)
    ensures UnmarkedRoots(CoercedPairs(pairs, fields))
    decreases pairs
  {
    if pairs != [] {
      CoercedUnmarkedRoots(pairs[1..], fields);
      CoercedUnmarkedRoot(pairs[0], fields);
      hide CoercedPair, UnmarkedRoot;
      assert CoercedPairs(pairs, fields)[1..] == CoercedPairs(pairs[1..], fields);
    }
  }

  lemma CoercedMarkerFree(n: Node, fields: set<string>)
    requires MarkerFree(n)
    ensures MarkerFree(Coerced(n, fields))
  {
    CoercedShape(n, fields);
    if n.Map? {
      CoercedUnmarkedRoots(n.pairs, fields);
    }
  }
}
