// What substituting the keep-existing markers keeps.
module ViewFacts {
  import opened Outcome
  import opened Yaml
  import opened Mask
  import opened MaskLaws
  import opened ViewSentinels

  // ----- sentinels -----

  lemma {:induction false} GetStringMark(pairs: seq<Pair>, key: string)
    requires GetString(pairs, key).Some? && IsSentinel(GetString(pairs, key).value)
    ensures UuidOf(GetString(pairs, key).value) in PairMarks(pairs, true)
    decreases |pairs|
  {
    hide IsSentinel;
    if pairs[0].key != Leaf(Str(key)) {
      GetStringMark(pairs[1..], key);
    }
  }

  lemma KeyMarks(p: Pair, current: seq<Pair>)
    ensures MarksOf(ResolvedKey(p, current), true) <= MarksOf(p, true) + PairMarks(current, true)
    ensures MarksOf(ResolvedKey(p, current), false) == MarksOf(p, false)
  {
    if ResolvedKey(p, current) != p {
      var key := KeyText(p.key.value);
      assert forall v, b :: Marks(Leaf(v), b) == {};
      if IsSentinel(GetString(current, key).value) {
        GetStringMark(current, key);
      }
      hide IsSentinel, GetString;
    }
  }

  lemma {:induction false} KeysMarks(pairs: seq<Pair>, current: seq<Pair>)
    ensures PairMarks(ResolvedKeys(pairs, current), true) <= PairMarks(pairs, true) + PairMarks(current, true)
    ensures PairMarks(ResolvedKeys(pairs, current), false) == PairMarks(pairs, false)
    decreases |pairs|
  {
    if pairs != [] {
      KeyMarks(pairs[0], current);
      KeysMarks(pairs[1..], current);
      hide ResolvedKey, MarksOf;
      assert ResolvedKeys(pairs, current)[1..] == ResolvedKeys(pairs[1..], current);
    }
  }

  // The marks of the entries of a proxy list are marks of the list.
  lemma {:induction false} ByNameMarks(items: seq<Node>, name: string)
    requires name in ByName(items)
    ensures PairMarks(ByName(items)[name], true) <= ItemMarks(items, true)
    decreases |items|
  {
    hide GetString;
    var n := |items| - 1;
    ItemMarksSnoc(items[..n], items[n]);
    assert items == items[..n] + [items[n]];
    if name in ByName(items[..n]) {
      ByNameMarks(items[..n], name);
    }
  }

  lemma {:induction false} ItemMarksSnoc(items: seq<Node>, last: Node)
    ensures ItemMarks(items + [last], true) == ItemMarks(items, true) + Marks(last, true)
    decreases |items|
  {
    hide Marks;
    if items == [] {
      assert [last][1..] == [];
      assert items + [last] == [last];
    } else {
      assert (items + [last])[1..] == items[1..] + [last];
      ItemMarksSnoc(items[1..], last);
    }
  }

  lemma ItemMarksResolved(item: Node, byName: map<string, seq<Pair>>, marks: set<string>)
    requires forall name :: name in byName ==> PairMarks(byName[name], true) <= marks
    ensures Marks(ResolvedItem(item, byName), true) <= Marks(item, true) + marks
    ensures Marks(ResolvedItem(item, byName), false) == Marks(item, false)
  {
    if item.Map? && GetString(item.pairs, "name").Some? && GetString(item.pairs, "name").value in byName {
      KeysMarks(item.pairs, byName[GetString(item.pairs, "name").value]);
    }
    hide ResolvedKeys, GetString, PairMarks;
  }

  lemma {:induction false} ItemsMarks(items: seq<Node>, byName: map<string, seq<Pair>>, marks: set<string>)
    requires forall name :: name in byName ==> PairMarks(byName[name], true) <= marks
    ensures ItemMarks(ResolvedItems(items, byName), true) <= ItemMarks(items, true) + marks
    ensures ItemMarks(ResolvedItems(items, byName), false) == ItemMarks(items, false)
    decreases |items|
  {
    if items != [] {
      ItemMarksResolved(items[0], byName, marks);
      ItemsMarks(items[1..], byName, marks);
      hide ResolvedItem, Marks, PairMarks;
      assert ResolvedItems(items, byName)[1..] == ResolvedItems(items[1..], byName);
    }
  }

  lemma ProxiesPairMarks(p: Pair, byName: map<string, seq<Pair>>, marks: set<string>)
    requires forall name :: name in byName ==> PairMarks(byName[name], true) <= marks
    ensures MarksOf(Pair(p.key, ResolvedProxies(p.value, byName)), true) <= MarksOf(p, true) + marks
    ensures MarksOf(Pair(p.key, ResolvedProxies(p.value, byName)), false) == MarksOf(p, false)
  {
    if p.value.Seq? {
      ItemsMarks(p.value.items, byName, marks);
      hide ResolvedItems, PairMarks, ItemMarks;
    }
  }

  lemma SecretPairMarks(p: Pair, secret: string, marks: set<string>)
    requires p.key.Leaf? && (IsSentinel(secret) ==> UuidOf(secret) in marks)
    ensures MarksOf(Pair(p.key, ResolvedSecret(p.value, secret)), true) <= MarksOf(p, true) + marks
    ensures MarksOf(Pair(p.key, ResolvedSecret(p.value, secret)), false) == MarksOf(p, false)
  {
    assert forall v, b :: Marks(Leaf(v), b) == {};
    hide IsSentinel;
  }

  lemma {:induction false} AtProxiesMarks(pairs: seq<Pair>, byName: map<string, seq<Pair>>, marks: set<string>)
    requires forall name :: name in byName ==> PairMarks(byName[name], true) <= marks
    ensures PairMarks(AtProxies(pairs, byName), true) <= PairMarks(pairs, true) + marks
    ensures PairMarks(AtProxies(pairs, byName), false) == PairMarks(pairs, false)
    decreases |pairs|
  {
    if pairs != [] {
      ProxiesPairMarks(pairs[0], byName, marks);
      AtProxiesMarks(pairs[1..], byName, marks);
      hide ResolvedProxies, MarksOf;
      var r := AtProxies(pairs, byName);
      assert r[1..] == if pairs[0].key == Leaf(Str("proxies")) then pairs[1..] else AtProxies(pairs[1..], byName);
    }
  }

  lemma {:induction false} AtSecretMarks(pairs: seq<Pair>, secret: string, marks: set<string>)
    requires IsSentinel(secret) ==> UuidOf(secret) in marks
    ensures PairMarks(AtSecret(pairs, secret), true) <= PairMarks(pairs, true) + marks
    ensures PairMarks(AtSecret(pairs, secret), false) == PairMarks(pairs, false)
    decreases |pairs|
  {
    if pairs != [] {
      if pairs[0].key.Leaf? {
        SecretPairMarks(pairs[0], secret, marks);
      }
      AtSecretMarks(pairs[1..], secret, marks);
      hide ResolvedSecret, MarksOf, IsSentinel;
      var r := AtSecret(pairs, secret);
      assert r[1..] == if pairs[0].key == Leaf(Str("secret")) then pairs[1..] else AtSecret(pairs[1..], secret);
    }
  }

  lemma {:induction false} GetMarks(pairs: seq<Pair>, key: string)
    requires Get(pairs, key).Some?
    ensures Marks(Get(pairs, key).value, true) <= PairMarks(pairs, true)
    decreases |pairs|
  {
    hide Marks;
    if pairs[0].key != Leaf(Str(key)) {
      GetMarks(pairs[1..], key);
    }
  }

  // The substitution adds no sentinel but those of the current document, and none
  // beside a key that is not a scalar.
  lemma ResolveViewMarks(draft: Node, current: Node)
    ensures Pending(ResolveView(draft, current)) <= Pending(draft) + Pending(current)
    ensures Stuck(ResolveView(draft, current)) == Stuck(draft)
  {
    if draft.Map? {
      SecretMarks(draft.pairs, current);
      ProxiesMarks(SecretResolved(draft.pairs, current), current);
      hide SecretResolved, ProxiesResolved, PairMarks;
    }
  }

  lemma SecretMarks(pairs: seq<Pair>, current: Node)
    ensures PairMarks(SecretResolved(pairs, current), true) <= PairMarks(pairs, true) + Pending(current)
    ensures PairMarks(SecretResolved(pairs, current), false) == PairMarks(pairs, false)
  {
    match RootGet(current, "secret") {
      case Some(Leaf(Str(secret))) =>
        if IsSentinel(secret) {
          assert GetString(current.pairs, "secret") == Some(secret);
          GetStringMark(current.pairs, "secret");
        }
        AtSecretMarks(pairs, secret, Pending(current));
      case _ =>
    }
  }

  lemma ProxiesMarks(pairs: seq<Pair>, current: Node)
    ensures PairMarks(ProxiesResolved(pairs, current), true) <= PairMarks(pairs, true) + Pending(current)
    ensures PairMarks(ProxiesResolved(pairs, current), false) == PairMarks(pairs, false)
  {
    match RootGet(current, "proxies") {
      case Some(Seq(items)) =>
        GetMarks(current.pairs, "proxies");
        assert Marks(Seq(items), true) == ItemMarks(items, true);
        forall name | name in ByName(items)
          ensures PairMarks(ByName(items)[name], true) <= Pending(current)
        {
          ByNameMarks(items, name);
        }
        AtProxiesMarks(pairs, ByName(items), Pending(current));
      case _ =>
    }
  }

  // ----- string secrets -----

  ghost predicate AllStringSecrets(pairs: seq<Pair>, fields: set<string>) {
    pairs != [] ==> StringSecretsOf(pairs[0], fields) && AllStringSecrets(pairs[1..], fields)
  }

  ghost predicate ItemsStringSecrets(items: seq<Node>, fields: set<string>) {
    items != [] ==> StringSecrets(items[0], fields) && ItemsStringSecrets(items[1..], fields)
  }

  lemma {:induction false} AllStringSecretsIff(pairs: seq<Pair>, fields: set<string>)
    ensures AllStringSecrets(pairs, fields) <==> forall p :: p in pairs ==> StringSecretsOf(p, fields)
    decreases |pairs|
  {
    hide StringSecretsOf;
    if pairs != [] {
      AllStringSecretsIff(pairs[1..], fields);
      assert pairs == [pairs[0]] + pairs[1..];
      assert pairs[0] in pairs && forall p :: p in pairs[1..] ==> p in pairs;
    }
  }

  lemma {:induction false} ItemsStringSecretsIff(items: seq<Node>, fields: set<string>)
    ensures ItemsStringSecrets(items, fields) <==> forall m :: m in items ==> StringSecrets(m, fields)
    decreases |items|
  {
    hide StringSecrets;
    if items != [] {
      ItemsStringSecretsIff(items[1..], fields);
      assert items == [items[0]] + items[1..];
      assert items[0] in items && forall m :: m in items[1..] ==> m in items;
    }
  }

  lemma LeafStringSecrets(v: Scalar, fields: set<string>)
    ensures StringSecrets(Leaf(v), fields)
  {
  }

  lemma KeyStringSecrets(p: Pair, current: seq<Pair>, fields: set<string>)
    requires StringSecretsOf(p, fields)
    ensures StringSecretsOf(ResolvedKey(p, current), fields)
  {
    if ResolvedKey(p, current) != p {
      LeafStringSecrets(ResolvedKey(p, current).value.value, fields);
    }
  }

  lemma {:induction false} KeysStringSecrets(pairs: seq<Pair>, current: seq<Pair>, fields: set<string>)
    requires AllStringSecrets(pairs, fields)
    ensures AllStringSecrets(ResolvedKeys(pairs, current), fields)
    decreases |pairs|
  {
    if pairs != [] {
      KeyStringSecrets(pairs[0], current, fields);
      KeysStringSecrets(pairs[1..], current, fields);
      hide ResolvedKey, StringSecretsOf;
      assert ResolvedKeys(pairs, current)[1..] == ResolvedKeys(pairs[1..], current);
    }
  }

  lemma ItemStringSecrets(item: Node, byName: map<string, seq<Pair>>, fields: set<string>)
    requires StringSecrets(item, fields)
    ensures StringSecrets(ResolvedItem(item, byName), fields)
  {
    if item.Map? && GetString(item.pairs, "name").Some? && GetString(item.pairs, "name").value in byName {
      var current := byName[GetString(item.pairs, "name").value];
      AllStringSecretsIff(item.pairs, fields);
      KeysStringSecrets(item.pairs, current, fields);
      AllStringSecretsIff(ResolvedKeys(item.pairs, current), fields);
    }
    hide ResolvedKeys, GetString, StringSecretsOf;
  }

  lemma {:induction false} ItemsResolvedStringSecrets(items: seq<Node>, byName: map<string, seq<Pair>>, fields: set<string>)
    requires ItemsStringSecrets(items, fields)
    ensures ItemsStringSecrets(ResolvedItems(items, byName), fields)
    decreases |items|
  {
    if items != [] {
      ItemStringSecrets(items[0], byName, fields);
      ItemsResolvedStringSecrets(items[1..], byName, fields);
      hide ResolvedItem, StringSecrets;
      assert ResolvedItems(items, byName)[1..] == ResolvedItems(items[1..], byName);
    }
  }

  lemma RootStringSecrets(p: Pair, secret: string, byName: map<string, seq<Pair>>, fields: set<string>)
    requires StringSecretsOf(p, fields) && p.key.Leaf?
    ensures StringSecretsOf(Pair(p.key, ResolvedSecret(p.value, secret)), fields)
    ensures StringSecretsOf(Pair(p.key, ResolvedProxies(p.value, byName)), fields)
  {
    LeafStringSecrets(Str(secret), fields);
    if p.value.Seq? {
      ItemsStringSecretsIff(p.value.items, fields);
      ItemsResolvedStringSecrets(p.value.items, byName, fields);
      ItemsStringSecretsIff(ResolvedItems(p.value.items, byName), fields);
      hide ResolvedItems, IsSentinel, IsSecretKey;
      assert StringSecrets(Seq(ResolvedItems(p.value.items, byName)), fields);
    }
  }

  lemma {:induction false} RootsStringSecrets(pairs: seq<Pair>, secret: string, byName: map<string, seq<Pair>>, fields: set<string>)
    requires AllStringSecrets(pairs, fields)
    ensures AllStringSecrets(AtSecret(pairs, secret), fields)
    ensures AllStringSecrets(AtProxies(pairs, byName), fields)
    decreases |pairs|
  {
    if pairs != [] {
      if pairs[0].key.Leaf? {
        RootStringSecrets(pairs[0], secret, byName, fields);
      }
      RootsStringSecrets(pairs[1..], secret, byName, fields);
      hide ResolvedSecret, ResolvedProxies, StringSecretsOf;
      assert AtSecret(pairs, secret)[1..] == if pairs[0].key == Leaf(Str("secret")) then pairs[1..] else AtSecret(pairs[1..], secret);
      assert AtProxies(pairs, byName)[1..] == if pairs[0].key == Leaf(Str("proxies")) then pairs[1..] else AtProxies(pairs[1..], byName);
    }
  }

  // The substitution turns no string secret into another scalar.
  lemma ResolveViewStringSecrets(draft: Node, current: Node, fields: set<string>)
    requires StringSecrets(draft, fields)
    ensures StringSecrets(ResolveView(draft, current), fields)
  {
    if draft.Map? {
      var secret := match RootGet(current, "secret") case Some(Leaf(Str(s))) => s case _ => "";
      var byName := match RootGet(current, "proxies") case Some(Seq(items)) => ByName(items) case _ => map[];
      var pairs := SecretResolved(draft.pairs, current);
      AllStringSecretsIff(draft.pairs, fields);
      RootsStringSecrets(draft.pairs, secret, byName, fields);
      RootsStringSecrets(pairs, secret, byName, fields);
      AllStringSecretsIff(ProxiesResolved(pairs, current), fields);
    }
  }

  // The document a rollback writes is the captured one exactly when its secrets are
  // strings and the live document fills none of its markers with something else.
  lemma RestoredIff(c: Node, live: Node, fields: set<string>)
    ensures ResolveView(Coerced(c, fields), live) == c <==> StringSecrets(c, fields) && ResolveView(c, live) == c
  {
    CoercedIff(c, fields);
    CoercedMasks(c, fields, n => "", 0);
    ResolveViewStringSecrets(Coerced(c, fields), live, fields);
  }
}
