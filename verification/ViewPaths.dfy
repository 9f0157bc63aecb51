// What filling the keep-existing markers does to each pair of a draft.
module ViewPaths {
  import opened Outcome
  import opened Yaml
  import opened ViewSentinels

  // ----- lookups by position -----

  // The first pair with the string key.
  ghost predicate FirstAt(pairs: seq<Pair>, i: nat, key: string) {
    i < |pairs| && pairs[i].key == Leaf(Str(key)) && forall j :: 0 <= j < i ==> pairs[j].key != Leaf(Str(key))
  }

  ghost predicate StringAt(pairs: seq<Pair>, key: string, t: string) {
    exists i: nat :: FirstAt(pairs, i, key) && pairs[i].value == Leaf(Str(t))
  }

  // The last entry of a proxy list with a name.
  ghost predicate LastNamed(items: seq<Node>, c: nat, name: string) {
    && name != "" && c < |items| && Named(items[c], name)
    && forall d :: c < d < |items| ==> !Named(items[d], name)
  }

  ghost predicate Named(item: Node, name: string) {
    item.Map? && StringAt(item.pairs, "name", name)
  }

  // The proxy list of a document.
  ghost predicate HasProxies(n: Node, items: seq<Node>) {
    n.Map? && exists p: nat :: FirstAt(n.pairs, p, "proxies") && n.pairs[p].value == Seq(items)
  }

  // The last current proxy of the name has the string at the key.
  ghost predicate Gives(current: Node, name: string, key: string, t: string) {
    exists items: seq<Node>, c: nat :: HasProxies(current, items) && LastNamed(items, c, name) && StringAt(items[c].pairs, key, t)
  }

  // The marker of a proxy key stands under that key.
  predicate Marked(pair: Pair) {
    && pair.key.Leaf?
    && (|| (KeyText(pair.key.value) == "private-key" && pair.value == Leaf(Str("MIHARBORMASKEDPRIVATEKEYREENTERTOCHANGE1234=")))
        || (KeyText(pair.key.value) == "pre-shared-key" && pair.value == Leaf(Str("MIHARBORMASKEDPRESHAREDKEYREENTERTOCHANGE12="))))
  }

  // The string that fills the marker of a pair of a draft entry.
  ghost predicate Fills(current: Node, entry: seq<Pair>, pair: Pair, t: string) {
    Marked(pair) && exists name :: StringAt(entry, "name", name) && Gives(current, name, KeyText(pair.key.value), t)
  }

  lemma {:induction false} GetIsFirst(pairs: seq<Pair>, key: string) returns (i: nat)
    ensures Get(pairs, key).Some? ==> FirstAt(pairs, i, key) && pairs[i].value == Get(pairs, key).value
    ensures forall j: nat :: FirstAt(pairs, j, key) ==> Get(pairs, key) == Some(pairs[j].value)
    decreases |pairs|
  {
    i := 0;
    if pairs != [] && pairs[0].key != Leaf(Str(key)) {
      i := GetIsFirst(pairs[1..], key);
      forall j: nat | FirstAt(pairs, j, key)
        ensures Get(pairs, key) == Some(pairs[j].value)
      {
        assert FirstAt(pairs[1..], j - 1, key) by {
          assert forall k :: 0 <= k < j - 1 ==> pairs[1..][k] == pairs[k + 1];
        }
      }
      if Get(pairs, key).Some? {
        assert forall k :: 1 <= k < i + 1 ==> pairs[k] == pairs[1..][k - 1];
      }
      i := i + 1;
    }
  }

  lemma StringAtIff(pairs: seq<Pair>, key: string, t: string)
    ensures GetString(pairs, key) == Some(t) <==> StringAt(pairs, key, t)
  {
    var i := GetIsFirst(pairs, key);
    hide Get, FirstAt;
  }

  lemma RootIsFirst(n: Node, items: seq<Node>)
    ensures RootGet(n, "proxies") == Some(Seq(items)) <==> HasProxies(n, items)
  {
    if n.Map? {
      var i := GetIsFirst(n.pairs, "proxies");
    }
    hide Get, FirstAt;
  }

  lemma NamedIff(item: Node, name: string)
    ensures item.Map? && GetString(item.pairs, "name") == Some(name) <==> Named(item, name)
  {
    if item.Map? {
      StringAtIff(item.pairs, "name", name);
    }
  }

  lemma LastNamedSnoc(init: seq<Node>, last: Node, name: string, d: nat)
    ensures LastNamed(init + [last], d, name) <==>
              if name != "" && Named(last, name) then d == |init| else LastNamed(init, d, name)
  {
    hide Named;
    var items := init + [last];
    assert items[|init|] == last;
    assert forall k :: 0 <= k < |init| ==> items[k] == init[k];
  }

  lemma {:induction false} ByNameIff(items: seq<Node>, name: string) returns (c: nat)
    ensures name in ByName(items) ==> LastNamed(items, c, name)
    ensures forall d: nat :: LastNamed(items, d, name) ==> d < |items| && name in ByName(items) && ByName(items)[name] == items[d].pairs
    decreases |items|
  {
    c := 0;
    if items != [] {
      var init, last := items[..|items| - 1], items[|items| - 1];
      NamedIff(last, name);
      c := ByNameIff(init, name);
      hide Named, GetString, LastNamed;
      if name != "" && Named(last, name) {
        c := |items| - 1;
      }
      assert items == init + [last];
      forall d: nat
        ensures LastNamed(items, d, name) <==> if name != "" && Named(last, name) then d == |init| else LastNamed(init, d, name)
      {
        LastNamedSnoc(init, last, name, d);
      }
    }
  }

  // ----- the parts of a draft by position -----

  lemma {:induction false} ResolvedKeysAt(pairs: seq<Pair>, current: seq<Pair>, q: nat)
    requires q < |pairs|
    ensures |ResolvedKeys(pairs, current)| == |pairs| && ResolvedKeys(pairs, current)[q] == ResolvedKey(pairs[q], current)
    decreases |pairs|
  {
    hide ResolvedKey;
    ResolvedKeysSize(pairs, current);
    if q > 0 {
      ResolvedKeysAt(pairs[1..], current, q - 1);
    }
  }

  lemma {:induction false} ResolvedKeysSize(pairs: seq<Pair>, current: seq<Pair>)
    ensures |ResolvedKeys(pairs, current)| == |pairs|
    decreases |pairs|
  {
    hide ResolvedKey;
    if pairs != [] {
      ResolvedKeysSize(pairs[1..], current);
    }
  }

  lemma {:induction false} ResolvedItemsAt(items: seq<Node>, byName: map<string, seq<Pair>>, j: nat)
    requires j < |items|
    ensures |ResolvedItems(items, byName)| == |items| && ResolvedItems(items, byName)[j] == ResolvedItem(items[j], byName)
    decreases |items|
  {
    hide ResolvedItem;
    ResolvedItemsSize(items, byName);
    if j > 0 {
      ResolvedItemsAt(items[1..], byName, j - 1);
    }
  }

  lemma {:induction false} ResolvedItemsSize(items: seq<Node>, byName: map<string, seq<Pair>>)
    ensures |ResolvedItems(items, byName)| == |items|
    decreases |items|
  {
    hide ResolvedItem;
    if items != [] {
      ResolvedItemsSize(items[1..], byName);
    }
  }

  lemma FirstInTail(pairs: seq<Pair>, i: nat, key: string)
    requires 0 < i < |pairs| && pairs[0].key != Leaf(Str(key))
    ensures FirstAt(pairs[1..], i - 1, key) <==> FirstAt(pairs, i, key)
  {
    if FirstAt(pairs[1..], i - 1, key) {
      assert forall k :: 1 <= k < i ==> pairs[k] == pairs[1..][k - 1];
    }
    if FirstAt(pairs, i, key) {
      assert forall k :: 0 <= k < i - 1 ==> pairs[1..][k] == pairs[k + 1];
    }
  }

  lemma {:induction false} AtSecretAt(pairs: seq<Pair>, secret: string, i: nat)
    requires i < |pairs|
    ensures |AtSecret(pairs, secret)| == |pairs| && AtSecret(pairs, secret)[i].key == pairs[i].key
    ensures AtSecret(pairs, secret)[i].value == if FirstAt(pairs, i, "secret") then ResolvedSecret(pairs[i].value, secret) else pairs[i].value
    decreases |pairs|
  {
    hide ResolvedSecret;
    AtSecretSize(pairs, secret);
    if i > 0 && pairs[0].key != Leaf(Str("secret")) {
      FirstInTail(pairs, i, "secret");
      AtSecretAt(pairs[1..], secret, i - 1);
    }
  }

  lemma {:induction false} AtSecretSize(pairs: seq<Pair>, secret: string)
    ensures |AtSecret(pairs, secret)| == |pairs|
    decreases |pairs|
  {
    hide ResolvedSecret;
    if pairs != [] {
      AtSecretSize(pairs[1..], secret);
    }
  }

  lemma {:induction false} AtProxiesAt(pairs: seq<Pair>, byName: map<string, seq<Pair>>, i: nat)
    requires i < |pairs|
    ensures |AtProxies(pairs, byName)| == |pairs| && AtProxies(pairs, byName)[i].key == pairs[i].key
    ensures AtProxies(pairs, byName)[i].value == if FirstAt(pairs, i, "proxies") then ResolvedProxies(pairs[i].value, byName) else pairs[i].value
    decreases |pairs|
  {
    hide ResolvedProxies;
    AtProxiesSize(pairs, byName);
    if i > 0 && pairs[0].key != Leaf(Str("proxies")) {
      FirstInTail(pairs, i, "proxies");
      AtProxiesAt(pairs[1..], byName, i - 1);
    }
  }

  lemma {:induction false} AtProxiesSize(pairs: seq<Pair>, byName: map<string, seq<Pair>>)
    ensures |AtProxies(pairs, byName)| == |pairs|
    decreases |pairs|
  {
    hide ResolvedProxies;
    if pairs != [] {
      AtProxiesSize(pairs[1..], byName);
    }
  }

  // ----- the laws -----

  // The string at the root secret of the current document.
  ghost predicate HasSecret(current: Node, t: string) {
    current.Map? && StringAt(current.pairs, "secret", t)
  }

  lemma SecretPart(pairs: seq<Pair>, current: Node, i: nat)
    requires i < |pairs|
    ensures var r := SecretResolved(pairs, current);
            var p := Pair(Leaf(Str("secret")), Leaf(Str("__MIHARBOR_SECRET_SET_NOT_SHOWN__")));
            && |r| == |pairs| && r[i].key == pairs[i].key
            && (FirstAt(pairs, i, "secret") && pairs[i] == p ==> forall t :: HasSecret(current, t) ==> r[i].value == Leaf(Str(t)))
            && (!(FirstAt(pairs, i, "secret") && pairs[i] == p && exists t :: HasSecret(current, t)) ==> r[i] == pairs[i])
  {
    forall t
      ensures HasSecret(current, t) <==> RootGet(current, "secret") == Some(Leaf(Str(t)))
    {
      if current.Map? {
        StringAtIff(current.pairs, "secret", t);
      }
    }
    hide Get, FirstAt, StringAt, HasSecret;
    match RootGet(current, "secret")
    case Some(Leaf(Str(secret))) => AtSecretAt(pairs, secret, i);
    case _ =>
  }

  // Root pairs keep their keys and their places. The secret marker under the first root
  // secret becomes the current secret, if that is a string; the first proxies may change
  // in their entries; every other pair stays.
  lemma RootPairs(draft: Node, current: Node, i: nat)
    requires draft.Map? && i < |draft.pairs|
    ensures var r, p := ResolveView(draft, current), draft.pairs[i];
            var marked := FirstAt(draft.pairs, i, "secret") && p.value == Leaf(Str("__MIHARBOR_SECRET_SET_NOT_SHOWN__"));
            && r.Map? && |r.pairs| == |draft.pairs| && r.pairs[i].key == p.key
            && (marked ==> forall t :: HasSecret(current, t) ==> r.pairs[i].value == Leaf(Str(t)))
            && (!(marked && exists t :: HasSecret(current, t)) && !(FirstAt(draft.pairs, i, "proxies") && p.value.Seq?) ==> r.pairs[i] == p)
  {
    SecretPart(draft.pairs, current, i);
    var pairs := SecretResolved(draft.pairs, current);
    SameFirst(draft.pairs, current, i);
    hide Get, HasSecret, SecretResolved, ByName;
    assert "secret" != "proxies";
    match RootGet(current, "proxies")
    case Some(Seq(items)) => AtProxiesAt(pairs, ByName(items), i);
    case _ =>
  }

  lemma SameFirst(pairs: seq<Pair>, current: Node, i: nat)
    requires i < |pairs|
    ensures var r := SecretResolved(pairs, current);
            && |r| == |pairs| && (FirstAt(r, i, "proxies") <==> FirstAt(pairs, i, "proxies"))
            && (FirstAt(pairs, i, "proxies") ==> r[i] == pairs[i])
  {
    forall j: nat | j < |pairs|
      ensures var r := SecretResolved(pairs, current); |r| == |pairs| && r[j].key == pairs[j].key
      ensures FirstAt(pairs, j, "proxies") ==> SecretResolved(pairs, current)[j] == pairs[j]
    {
      SecretPart(pairs, current, j);
      assert "secret" != "proxies";
    }
    hide SecretResolved;
    SecretPart(pairs, current, i);
  }

  // The entries of a draft with their markers filled.
  function FilledItems(items: seq<Node>, current: Node): seq<Node> {
    match RootGet(current, "proxies")
    case Some(Seq(listed)) => ResolvedItems(items, ByName(listed))
    case _ => items
  }

  lemma ProxiesPart(draft: Node, current: Node, i: nat, items: seq<Node>)
    requires draft.Map? && FirstAt(draft.pairs, i, "proxies") && draft.pairs[i].value == Seq(items)
    ensures ResolveView(draft, current).Map? && i < |ResolveView(draft, current).pairs|
    ensures ResolveView(draft, current).pairs[i].value ==
            Seq(FilledItems(items, current))
  {
    SameFirst(draft.pairs, current, i);
    hide Get, SecretResolved, ByName, ResolvedItems;
    match RootGet(current, "proxies")
    case Some(Seq(listed)) => AtProxiesAt(SecretResolved(draft.pairs, current), ByName(listed), i);
    case _ =>
  }

  // Proxy entries keep their places, and their pairs their keys and places. A marker under
  // its key becomes the string that the last current proxy of the same name has under that
  // very key; without such a string, and in every other pair, nothing changes.
  lemma EntryPairs(draft: Node, current: Node, i: nat, items: seq<Node>, j: nat, q: nat)
    requires draft.Map? && FirstAt(draft.pairs, i, "proxies") && draft.pairs[i].value == Seq(items)
    requires j < |items| && items[j].Map? && q < |items[j].pairs|
    ensures var r := ResolveView(draft, current);
            && r.Map? && i < |r.pairs| && r.pairs[i].value.Seq? && |r.pairs[i].value.items| == |items|
            && var e, pair := r.pairs[i].value.items[j], items[j].pairs[q];
               && e.Map? && |e.pairs| == |items[j].pairs| && e.pairs[q].key == pair.key
               && (forall t :: Fills(current, items[j].pairs, pair, t) ==> e.pairs[q].value == Leaf(Str(t)))
               && (!(exists t :: Fills(current, items[j].pairs, pair, t)) ==> e.pairs[q] == pair)
  {
    ProxiesPart(draft, current, i, items);
    EntryPart(items, current, j, q);
    hide ResolveView, ResolvedItems, ByName, Fills, Get, FirstAt;
  }

  lemma EntryPart(items: seq<Node>, current: Node, j: nat, q: nat)
    requires j < |items| && items[j].Map? && q < |items[j].pairs|
    ensures var r := FilledItems(items, current);
            && |r| == |items|
            && var e, pair := r[j], items[j].pairs[q];
               && e.Map? && |e.pairs| == |items[j].pairs| && e.pairs[q].key == pair.key
               && (forall t :: Fills(current, items[j].pairs, pair, t) ==> e.pairs[q].value == Leaf(Str(t)))
               && (!(exists t :: Fills(current, items[j].pairs, pair, t)) ==> e.pairs[q] == pair)
  {
    var entry, pair := items[j].pairs, items[j].pairs[q];
    match RootGet(current, "proxies")
    case Some(Seq(listed)) =>
      ResolvedItemsAt(items, ByName(listed), j);
      PairPart(entry, pair, current, listed, q);
      hide ResolvedItems, ByName, Fills, Get, ResolvedKey, ResolvedKeys, GetString;
    case _ =>
      forall t
        ensures !Fills(current, entry, pair, t)
      {
        NoProxies(current);
      }
  }

  lemma NoProxies(current: Node)
    requires forall items: seq<Node> :: RootGet(current, "proxies") != Some(Seq(items))
    ensures forall name, key, t :: !Gives(current, name, key, t)
  {
    forall items: seq<Node>
      ensures !HasProxies(current, items)
    {
      RootIsFirst(current, items);
    }
    hide HasProxies;
  }

  // What filling makes of a pair of an entry.
  lemma PairPart(entry: seq<Pair>, pair: Pair, current: Node, listed: seq<Node>, q: nat)
    requires RootGet(current, "proxies") == Some(Seq(listed)) && q < |entry| && entry[q] == pair
    ensures var e := ResolvedItem(Map(entry), ByName(listed));
            && e.Map? && |e.pairs| == |entry| && e.pairs[q].key == pair.key
            && (forall t :: Fills(current, entry, pair, t) ==> e.pairs[q].value == Leaf(Str(t)))
            && (!(exists t :: Fills(current, entry, pair, t)) ==> e.pairs[q] == pair)
  {
    forall t
      ensures Fills(current, entry, pair, t) <==>
                && Marked(pair) && GetString(entry, "name").Some? && GetString(entry, "name").value in ByName(listed)
                && GetString(ByName(listed)[GetString(entry, "name").value], KeyText(pair.key.value)) == Some(t)
    {
      FillsIff(entry, pair, current, listed, t);
    }
    hide Fills, Get, GetString, ByName, Gives, Expected;
    if GetString(entry, "name").Some? && GetString(entry, "name").value in ByName(listed) {
      var donor := ByName(listed)[GetString(entry, "name").value];
      ResolvedKeysAt(entry, donor, q);
      MarkedIff(pair);
    }
  }

  lemma MarkedIff(pair: Pair)
    ensures Marked(pair) <==> pair.key.Leaf? && pair.value.Leaf? && pair.value.value.Str? && Expected(KeyText(pair.key.value)) == Some(pair.value.value.s)
  {
    assert "private-key" != "pre-shared-key";
  }

  lemma FillsIff(entry: seq<Pair>, pair: Pair, current: Node, listed: seq<Node>, t: string)
    requires RootGet(current, "proxies") == Some(Seq(listed))
    ensures Fills(current, entry, pair, t) <==>
              && Marked(pair) && GetString(entry, "name").Some? && GetString(entry, "name").value in ByName(listed)
              && GetString(ByName(listed)[GetString(entry, "name").value], KeyText(pair.key.value)) == Some(t)
  {
    if Marked(pair) {
      var k := KeyText(pair.key.value);
      hide Marked;
      forall name
        ensures StringAt(entry, "name", name) <==> GetString(entry, "name") == Some(name)
        ensures Gives(current, name, k, t) <==> name in ByName(listed) && GetString(ByName(listed)[name], k) == Some(t)
      {
        StringAtIff(entry, "name", name);
        GivesIff(current, listed, name, k, t);
      }
      hide Gives, StringAt, ByName, GetString;
    }
  }

  lemma GivesIff(current: Node, listed: seq<Node>, name: string, k: string, t: string)
    requires RootGet(current, "proxies") == Some(Seq(listed))
    ensures Gives(current, name, k, t) <==> name in ByName(listed) && GetString(ByName(listed)[name], k) == Some(t)
  {
    RootIsFirst(current, listed);
    forall items: seq<Node> | HasProxies(current, items)
      ensures items == listed
    {
      RootIsFirst(current, items);
    }
    var c := ByNameIff(listed, name);
    forall d: nat | LastNamed(listed, d, name)
      ensures StringAt(listed[d].pairs, k, t) <==> GetString(listed[d].pairs, k) == Some(t)
    {
      StringAtIff(listed[d].pairs, k, t);
    }
    hide HasProxies, LastNamed, ByName, StringAt, GetString, RootGet;
  }

  // An entry that is not a mapping stays as it is.
  lemma OtherEntries(draft: Node, current: Node, i: nat, items: seq<Node>, j: nat)
    requires draft.Map? && FirstAt(draft.pairs, i, "proxies") && draft.pairs[i].value == Seq(items)
    requires j < |items| && !items[j].Map?
    ensures var r := ResolveView(draft, current);
            r.Map? && i < |r.pairs| && r.pairs[i].value.Seq? && |r.pairs[i].value.items| == |items| && r.pairs[i].value.items[j] == items[j]
  {
    ProxiesPart(draft, current, i, items);
    match RootGet(current, "proxies")
    case Some(Seq(listed)) => ResolvedItemsAt(items, ByName(listed), j);
    case _ =>
  }

  // A draft that is not a mapping stays as it is.
  lemma OtherDrafts(draft: Node, current: Node)
    ensures !draft.Map? ==> ResolveView(draft, current) == draft
  {
  }
}
