// What writing the profile settings does to a document, key by key, and how reading and
// writing undo each other.
module ProfileLaws {
  import opened Outcome
  import opened Text
  import opened ProfileTree
  import opened ProfileLens

  // ----- ordered maps -----

  // No key twice.
  ghost predicate DistinctFields(fields: seq<Field>) {
    fields != [] ==> FieldAt(fields[1..], fields[0].key).None? && DistinctFields(fields[1..])
  }

  lemma {:induction false} PutFieldAt(fields: seq<Field>, key: string, value: Json, k: string)
    ensures FieldAt(PutField(fields, key, value), k) == if k == key then Some(value) else FieldAt(fields, k)
  {
    if fields != [] && fields[0].key != key {
      PutFieldAt(fields[1..], key, value, k);
    }
  }

  lemma {:induction false} PutFieldDistinct(fields: seq<Field>, key: string, value: Json)
    requires DistinctFields(fields)
    ensures DistinctFields(PutField(fields, key, value))
  {
    if fields != [] && fields[0].key != key {
      PutFieldDistinct(fields[1..], key, value);
      PutFieldAt(fields[1..], key, value, fields[0].key);
    }
  }

  lemma {:induction false} PutFieldsAt(fields: seq<Field>, more: seq<Field>, k: string)
    requires DistinctFields(fields) && DistinctFields(more)
    ensures DistinctFields(PutFields(fields, more))
    ensures FieldAt(PutFields(fields, more), k) == if FieldAt(more, k).Some? then FieldAt(more, k) else FieldAt(fields, k)
    decreases |more|
  {
    if more != [] {
      var f := more[0];
      PutFieldDistinct(fields, f.key, f.value);
      PutFieldAt(fields, f.key, f.value, k);
      PutFieldsAt(PutField(fields, f.key, f.value), more[1..], k);
    }
  }

  lemma {:induction false} PutKnownAt(fields: seq<Field>, order: seq<string>, known: map<string, Json>, k: string)
    requires DistinctFields(fields)
    ensures DistinctFields(PutKnown(fields, order, known))
    ensures FieldAt(PutKnown(fields, order, known), k) == if k in order && k in known then Some(known[k]) else FieldAt(fields, k)
    decreases |order|
  {
    if order != [] {
      if order[0] in known {
        PutFieldDistinct(fields, order[0], known[order[0]]);
        PutFieldAt(fields, order[0], known[order[0]], k);
        PutKnownAt(PutField(fields, order[0], known[order[0]]), order[1..], known, k);
      } else {
        PutKnownAt(fields, order[1..], known, k);
      }
    }
  }

  lemma {:induction false} PutManagedAt(fields: seq<Field>, config: Config, order: seq<string>, k: string)
    requires DistinctFields(fields)
    ensures DistinctFields(PutManaged(fields, config, order))
    ensures FieldAt(PutManaged(fields, config, order), k) ==
            if k in order && ManagedAt(config, k).Some? then ManagedAt(config, k) else FieldAt(fields, k)
    decreases |order|
  {
    hide ManagedAt;
    if order != [] {
      var v := ManagedAt(config, order[0]);
      if v.Some? {
        PutFieldDistinct(fields, order[0], v.value);
        PutFieldAt(fields, order[0], v.value, k);
        PutManagedAt(PutField(fields, order[0], v.value), config, order[1..], k);
      } else {
        PutManagedAt(fields, config, order[1..], k);
      }
    }
  }

  lemma {:induction false} InsertAt(fields: seq<Field>, f: Field, k: string)
    requires DistinctFields(fields) && FieldAt(fields, f.key).None?
    ensures FieldAt(InsertField(fields, f), k) == if k == f.key then Some(f.value) else FieldAt(fields, k)
  {
    if fields != [] && !Less(f.key, fields[0].key) {
      InsertAt(fields[1..], f, k);
    }
  }

  lemma {:induction false} InsertDistinct(fields: seq<Field>, f: Field)
    requires DistinctFields(fields) && FieldAt(fields, f.key).None?
    ensures DistinctFields(InsertField(fields, f))
  {
    if fields != [] && !Less(f.key, fields[0].key) {
      InsertDistinct(fields[1..], f);
      InsertAt(fields[1..], f, fields[0].key);
    }
  }

  // Sorting changes the order only.
  lemma {:induction false} SortAt(fields: seq<Field>, k: string)
    requires DistinctFields(fields)
    ensures DistinctFields(SortFields(fields))
    ensures FieldAt(SortFields(fields), k) == FieldAt(fields, k)
  {
    if fields != [] {
      SortAt(fields[1..], k);
      SortAt(fields[1..], fields[0].key);
      InsertAt(SortFields(fields[1..]), fields[0], k);
      InsertDistinct(SortFields(fields[1..]), fields[0]);
    }
  }

  lemma {:induction false} OthersDistinct(fields: seq<Field>, listed: seq<string>)
    requires DistinctFields(fields)
    ensures DistinctFields(Others(fields, listed))
  {
    if fields != [] {
      OthersDistinct(fields[1..], listed);
      OthersAt(fields[1..], listed, fields[0].key);
    }
  }

  lemma {:induction false} KeyedDistinct(fields: seq<Field>)
    requires KeyedFields(fields)
    ensures DistinctFields(fields)
  {
    hide Keyed;
    if fields != [] {
      KeyedDistinct(fields[1..]);
    }
  }

  lemma BuildSubAt(order: seq<string>, sub: Sub, k: string)
    requires DistinctFields(ExtrasOf(sub.extras))
    ensures DistinctFields(BuildSub(order, sub))
    ensures FieldAt(BuildSub(order, sub), k) ==
            if FieldAt(ExtrasOf(sub.extras), k).Some? then FieldAt(ExtrasOf(sub.extras), k)
            else if k in order && k in sub.known then Some(sub.known[k])
            else None
  {
    hide PutKnown, SortFields, PutFields;
    PutKnownAt([], order, sub.known, k);
    SortAt(ExtrasOf(sub.extras), k);
    PutFieldsAt(PutKnown([], order, sub.known), SortFields(ExtrasOf(sub.extras)), k);
  }

  // What is written at a key: the extra of that key, or the known value.
  function ValueFor(config: Config, k: string): Option<Json> {
    if FieldAt(ExtrasOf(config.extras), k).Some? then FieldAt(ExtrasOf(config.extras), k)
    else if k in PROFILE_KEY_ORDER then ManagedAt(config, k)
    else None
  }

  lemma ManagedFieldAt(config: Config, k: string)
    requires DistinctFields(ExtrasOf(config.extras))
    ensures DistinctFields(Managed(config))
    ensures FieldAt(Managed(config), k) == ValueFor(config, k)
  {
    hide PROFILE_KEY_ORDER, ManagedAt, PutManaged, SortFields, PutFields;
    PutManagedAt([], config, PROFILE_KEY_ORDER, k);
    SortAt(ExtrasOf(config.extras), k);
    PutFieldsAt(PutManaged([], config, PROFILE_KEY_ORDER), SortFields(ExtrasOf(config.extras)), k);
  }

  // ----- the pairs of the document -----

  // No string key twice.
  ghost predicate DistinctKeys(pairs: seq<Pair>) {
    pairs != [] ==> (pairs[0].key.StrKey? ==> Lookup(pairs[1..], pairs[0].key.s).None?) && DistinctKeys(pairs[1..])
  }

  // No key but strings.
  ghost predicate AllStrings(pairs: seq<Pair>) {
    pairs != [] ==> pairs[0].key.StrKey? && AllStrings(pairs[1..])
  }

  lemma {:induction false} DeleteKeyAt(pairs: seq<Pair>, key: string, k: string)
    requires DistinctKeys(pairs)
    ensures Lookup(DeleteKey(pairs, key), k) == if k == key then None else Lookup(pairs, k)
  {
    if pairs != [] && pairs[0].key != StrKey(key) {
      DeleteKeyAt(pairs[1..], key, k);
    }
  }

  lemma {:induction false} DeleteKeyDistinct(pairs: seq<Pair>, key: string)
    requires DistinctKeys(pairs)
    ensures DistinctKeys(DeleteKey(pairs, key))
    ensures AllStrings(pairs) ==> AllStrings(DeleteKey(pairs, key))
  {
    if pairs != [] && pairs[0].key != StrKey(key) {
      DeleteKeyDistinct(pairs[1..], key);
      DeleteKeyAt(pairs[1..], key, KeyText(pairs[0].key));
    }
  }

  lemma {:induction false} DeleteKeysAt(pairs: seq<Pair>, keys: seq<string>, k: string)
    requires DistinctKeys(pairs)
    ensures DistinctKeys(DeleteKeys(pairs, keys))
    ensures AllStrings(pairs) ==> AllStrings(DeleteKeys(pairs, keys))
    ensures Lookup(DeleteKeys(pairs, keys), k) == if k in keys then None else Lookup(pairs, k)
    decreases |keys|
  {
    if keys != [] {
      DeleteKeyAt(pairs, keys[0], k);
      DeleteKeyDistinct(pairs, keys[0]);
      DeleteKeysAt(DeleteKey(pairs, keys[0]), keys[1..], k);
    }
  }

  lemma {:induction false} SetKeyAt(pairs: seq<Pair>, key: string, node: Node, k: string)
    ensures Lookup(SetKey(pairs, key, node), k) == if k == key then Some(node) else Lookup(pairs, k)
  {
    if pairs != [] && pairs[0].key != StrKey(key) {
      SetKeyAt(pairs[1..], key, node, k);
    }
  }

  lemma {:induction false} SetKeyDistinct(pairs: seq<Pair>, key: string, node: Node)
    requires DistinctKeys(pairs)
    ensures DistinctKeys(SetKey(pairs, key, node))
    ensures AllStrings(pairs) ==> AllStrings(SetKey(pairs, key, node))
  {
    if pairs != [] && pairs[0].key != StrKey(key) {
      SetKeyDistinct(pairs[1..], key, node);
      SetKeyAt(pairs[1..], key, node, KeyText(pairs[0].key));
    }
  }

  // The node after a value was written: the old one if it is equivalent.
  function Written(existing: Option<Node>, v: Json): Node {
    if existing.Some? && IsNodeEquivalent(existing.value, v) then existing.value else CreateNode(v)
  }

  lemma UpdatedAt(pairs: seq<Pair>, f: Field, k: string)
    requires DistinctKeys(pairs)
    ensures DistinctKeys(Updated(pairs, f))
    ensures AllStrings(pairs) ==> AllStrings(Updated(pairs, f))
    ensures Lookup(Updated(pairs, f), k) == if k == f.key then Some(Written(Lookup(pairs, k), f.value)) else Lookup(pairs, k)
  {
    hide IsNodeEquivalent, CreateNode, SetKey, Lookup, DistinctKeys, AllStrings;
    SetKeyAt(pairs, f.key, CreateNode(f.value), k);
    SetKeyDistinct(pairs, f.key, CreateNode(f.value));
  }

  lemma {:induction false} UpdatedAllAt(pairs: seq<Pair>, managed: seq<Field>, k: string)
    requires DistinctKeys(pairs) && DistinctFields(managed)
    ensures DistinctKeys(UpdatedAll(pairs, managed))
    ensures AllStrings(pairs) ==> AllStrings(UpdatedAll(pairs, managed))
    ensures Lookup(UpdatedAll(pairs, managed), k) ==
            match FieldAt(managed, k)
            case Some(v) => Some(Written(Lookup(pairs, k), v))
            case None => Lookup(pairs, k)
    decreases |managed|
  {
    if managed != [] {
      hide Updated, Written, Lookup, DistinctKeys, AllStrings;
      UpdatedAt(pairs, managed[0], k);
      UpdatedAllAt(Updated(pairs, managed[0]), managed[1..], k);
    }
  }

  lemma {:induction false} RemovalsIff(pairs: seq<Pair>, config: Config, managed: seq<Field>, k: string)
    ensures Lookup(pairs, k).Some? ==> (k in Removals(pairs, config, managed) <==> IsRemoved(config, managed, k))
    ensures k in Removals(pairs, config, managed) ==> IsRemoved(config, managed, k)
  {
    hide IsRemoved;
    if pairs != [] {
      RemovalsIff(pairs[1..], config, managed, k);
    }
  }

  lemma EmptyKeyUnknown()
    ensures "" !in PROFILE_KEY_ORDER
  {
  }

  // The document key by key: a key with something to write holds it, on the old node if
  // that is equivalent; a known key with nothing to write is gone; any other key, and so
  // every reserved section, keeps its node.
  lemma SetLookup(root: Node, config: Config, k: string)
    requires DistinctKeys(RootPairs(root)) && DistinctFields(ExtrasOf(config.extras))
    ensures DistinctKeys(SetPairs(RootPairs(root), config))
    ensures AllStrings(RootPairs(root)) ==> AllStrings(SetPairs(RootPairs(root), config))
    ensures Lookup(SetPairs(RootPairs(root), config), k) ==
            match ValueFor(config, k)
            case Some(v) => Some(Written(Lookup(RootPairs(root), k), v))
            case None => if k in PROFILE_KEY_ORDER then None else Lookup(RootPairs(root), k)
  {
    hide PROFILE_KEY_ORDER, ManagedAt, Managed, Removals, DeleteKeys, UpdatedAll, Written, Lookup, DistinctKeys, AllStrings, DistinctFields;
    var pairs, managed := RootPairs(root), Managed(config);
    var toRemove := Removals(pairs, config, managed);
    EmptyKeyUnknown();
    ManagedFieldAt(config, k);
    RemovalsIff(pairs, config, managed, k);
    DeleteKeysAt(pairs, toRemove, k);
    UpdatedAllAt(DeleteKeys(pairs, toRemove), managed, k);
  }

  // ----- order -----

  // The keys of a mapping, with their formats.
  function KeyList(pairs: seq<Pair>): seq<(Key, nat)> {
    if pairs == [] then [] else [(pairs[0].key, pairs[0].keyFormat)] + KeyList(pairs[1..])
  }

  // The keys that are not removed, in order; only string keys are.
  function Surviving(keys: seq<(Key, nat)>, config: Config, managed: seq<Field>): seq<(Key, nat)> {
    if keys == [] then []
    else
      (if keys[0].0.StrKey? && IsRemoved(config, managed, keys[0].0.s) then [] else [keys[0]])
      + Surviving(keys[1..], config, managed)
  }

  // The keys to write that are new, in order.
  function New(pairs: seq<Pair>, managed: seq<Field>): seq<(Key, nat)>
    decreases |managed|
  {
    if managed == [] then []
    else (if Lookup(pairs, managed[0].key).Some? then [] else [(StrKey(managed[0].key), 0)]) + New(pairs, managed[1..])
  }

  lemma {:induction false} SetKeyOrder(pairs: seq<Pair>, key: string, node: Node)
    ensures KeyList(SetKey(pairs, key, node)) == KeyList(pairs) + (if Lookup(pairs, key).Some? then [] else [(StrKey(key), 0)])
  {
    if pairs != [] && pairs[0].key != StrKey(key) {
      SetKeyOrder(pairs[1..], key, node);
      assert SetKey(pairs, key, node)[1..] == SetKey(pairs[1..], key, node);
    }
  }

  lemma {:induction false} NewSame(p: seq<Pair>, q: seq<Pair>, managed: seq<Field>)
    requires forall f :: f in managed ==> (Lookup(p, f.key).Some? <==> Lookup(q, f.key).Some?)
    ensures New(p, managed) == New(q, managed)
    decreases |managed|
  {
    if managed != [] {
      NewSame(p, q, managed[1..]);
    }
  }

  lemma {:induction false} AbsentKey(fields: seq<Field>, key: string, f: Field)
    requires FieldAt(fields, key).None? && f in fields
    ensures f.key != key
  {
    if f != fields[0] {
      AbsentKey(fields[1..], key, f);
    }
  }

  lemma NewAfter(pairs: seq<Pair>, f: Field, rest: seq<Field>)
    requires DistinctKeys(pairs) && FieldAt(rest, f.key).None?
    ensures New(Updated(pairs, f), rest) == New(pairs, rest)
  {
    hide New, Updated, DistinctKeys, Lookup, FieldAt;
    forall g | g in rest
      ensures Lookup(Updated(pairs, f), g.key).Some? <==> Lookup(pairs, g.key).Some?
    {
      AbsentKey(rest, f.key, g);
      UpdatedAt(pairs, f, g.key);
    }
    NewSame(Updated(pairs, f), pairs, rest);
  }

  lemma UpdatedKeys(pairs: seq<Pair>, f: Field)
    ensures KeyList(Updated(pairs, f)) == KeyList(pairs) + (if Lookup(pairs, f.key).Some? then [] else [(StrKey(f.key), 0)])
  {
    hide KeyList, SetKey, Lookup, IsNodeEquivalent, CreateNode;
    SetKeyOrder(pairs, f.key, CreateNode(f.value));
  }

  lemma {:induction false} UpdatedOrder(pairs: seq<Pair>, managed: seq<Field>)
    requires DistinctKeys(pairs) && DistinctFields(managed)
    ensures KeyList(UpdatedAll(pairs, managed)) == KeyList(pairs) + New(pairs, managed)
    decreases |managed|
  {
    hide KeyList, Updated, Lookup, DistinctKeys, AllStrings;
    if managed != [] {
      UpdatedAt(pairs, managed[0], "");
      UpdatedKeys(pairs, managed[0]);
      UpdatedOrder(Updated(pairs, managed[0]), managed[1..]);
      NewAfter(pairs, managed[0], managed[1..]);
    }
  }

  // The pairs without the given string keys.
  function Without(pairs: seq<Pair>, keys: seq<string>): seq<Pair> {
    if pairs == [] then []
    else (if pairs[0].key.StrKey? && pairs[0].key.s in keys then [] else [pairs[0]]) + Without(pairs[1..], keys)
  }

  lemma WithoutCons(p: Pair, rest: seq<Pair>, keys: seq<string>)
    ensures Without([p] + rest, keys) == if p.key.StrKey? && p.key.s in keys then Without(rest, keys) else [p] + Without(rest, keys)
  {
    assert ([p] + rest)[1..] == rest;
  }

  lemma KeyListCons(p: Pair, rest: seq<Pair>)
    ensures KeyList([p] + rest) == [(p.key, p.keyFormat)] + KeyList(rest)
  {
    assert ([p] + rest)[1..] == rest;
  }

  lemma SurvivingCons(key: (Key, nat), rest: seq<(Key, nat)>, config: Config, managed: seq<Field>)
    ensures Surviving([key] + rest, config, managed) ==
            if key.0.StrKey? && IsRemoved(config, managed, key.0.s) then Surviving(rest, config, managed)
            else [key] + Surviving(rest, config, managed)
  {
    assert ([key] + rest)[1..] == rest;
  }

  lemma {:induction false} WithoutAbsent(pairs: seq<Pair>, keys: seq<string>)
    requires forall key :: key in keys ==> Lookup(pairs, key).None?
    ensures Without(pairs, keys) == pairs
  {
    if pairs != [] {
      assert pairs[0].key.StrKey? ==> Lookup(pairs, pairs[0].key.s).Some?;
      WithoutAbsent(pairs[1..], keys);
    }
  }

  lemma {:induction false} DeleteIsWithout(pairs: seq<Pair>, key: string)
    requires DistinctKeys(pairs)
    ensures DeleteKey(pairs, key) == Without(pairs, [key])
  {
    if pairs != [] {
      if pairs[0].key == StrKey(key) {
        WithoutAbsent(pairs[1..], [key]);
      } else {
        DeleteIsWithout(pairs[1..], key);
      }
    }
  }

  lemma {:induction false} WithoutTwice(pairs: seq<Pair>, key: string, keys: seq<string>)
    ensures Without(Without(pairs, [key]), keys) == Without(pairs, [key] + keys)
  {
    if pairs != [] {
      WithoutTwice(pairs[1..], key, keys);
      var p, rest := pairs[0], Without(pairs[1..], [key]);
      if p.key == StrKey(key) {
        assert Without(pairs, [key]) == [] + rest == rest;
        assert key in [key] + keys;
      } else {
        assert Without(pairs, [key]) == [p] + rest;
        WithoutCons(p, rest, keys);
      }
    }
  }

  lemma {:induction false} DeletedIsWithout(pairs: seq<Pair>, keys: seq<string>)
    requires DistinctKeys(pairs)
    ensures DeleteKeys(pairs, keys) == Without(pairs, keys)
    decreases |keys|
  {
    if keys == [] {
      WithoutAbsent(pairs, []);
    } else {
      DeleteIsWithout(pairs, keys[0]);
      DeleteKeyDistinct(pairs, keys[0]);
      DeletedIsWithout(DeleteKey(pairs, keys[0]), keys[1..]);
      WithoutTwice(pairs, keys[0], keys[1..]);
      assert keys == [keys[0]] + keys[1..];
    }
  }

  lemma {:induction false} WithoutSurvives(pairs: seq<Pair>, keys: seq<string>, config: Config, managed: seq<Field>)
    requires forall p :: p in pairs && p.key.StrKey? ==> (p.key.s in keys <==> IsRemoved(config, managed, p.key.s))
    ensures KeyList(Without(pairs, keys)) == Surviving(KeyList(pairs), config, managed)
  {
    if pairs != [] {
      var p, rest := pairs[0], pairs[1..];
      assert pairs == [p] + rest;
      WithoutSurvives(rest, keys, config, managed);
      WithoutCons(p, rest, keys);
      KeyListCons(p, rest);
      KeyListCons(p, Without(rest, keys));
      SurvivingCons((p.key, p.keyFormat), KeyList(rest), config, managed);
      hide IsRemoved, Without, KeyList, Surviving;
      assert p in pairs;
    } else {
      NoKeys(config, managed);
      assert Without(pairs, keys) == [] && KeyList([]) == [];
    }
  }

  lemma {:induction false} MemberFound(pairs: seq<Pair>, p: Pair)
    requires p in pairs && p.key.StrKey?
    ensures Lookup(pairs, p.key.s).Some?
  {
    if p != pairs[0] {
      MemberFound(pairs[1..], p);
    }
  }

  lemma RemovalsOrder(pairs: seq<Pair>, config: Config, managed: seq<Field>)
    requires DistinctKeys(pairs)
    ensures KeyList(DeleteKeys(pairs, Removals(pairs, config, managed))) == Surviving(KeyList(pairs), config, managed)
  {
    hide KeyList, Removals, IsRemoved, Without, DeleteKeys, Surviving, Lookup;
    var keys := Removals(pairs, config, managed);
    DeletedIsWithout(pairs, keys);
    forall p | p in pairs && p.key.StrKey?
      ensures p.key.s in keys <==> IsRemoved(config, managed, p.key.s)
    {
      MemberFound(pairs, p);
      RemovalsIff(pairs, config, managed, p.key.s);
    }
    WithoutSurvives(pairs, keys, config, managed);
  }

  // Surviving keys keep their relative order and format; new ones come after them in
  // the order in which they are written.
  lemma SetOrder(root: Node, config: Config)
    requires DistinctKeys(RootPairs(root)) && DistinctFields(ExtrasOf(config.extras))
    ensures var pairs, managed := RootPairs(root), Managed(config);
            KeyList(SetPairs(pairs, config)) == Surviving(KeyList(pairs), config, managed) + New(pairs, managed)
  {
    hide PROFILE_KEY_ORDER, Managed, Removals, DeleteKeys, UpdatedAll, KeyList, Surviving, New, Lookup, DistinctKeys, AllStrings, DistinctFields;
    var pairs, managed := RootPairs(root), Managed(config);
    var kept := DeleteKeys(pairs, Removals(pairs, config, managed));
    ManagedFieldAt(config, "");
    DeleteKeysAt(pairs, Removals(pairs, config, managed), "");
    RemovalsOrder(pairs, config, managed);
    UpdatedOrder(kept, managed);
    forall f | f in managed
      ensures Lookup(kept, f.key).Some? <==> Lookup(pairs, f.key).Some?
    {
      DeleteKeysAt(pairs, Removals(pairs, config, managed), f.key);
      RemovalsIff(pairs, config, managed, f.key);
      PresentKey(managed, f);
    }
    NewSame(kept, pairs, managed);
  }

  lemma {:induction false} PresentKey(fields: seq<Field>, f: Field)
    requires f in fields
    ensures FieldAt(fields, f.key).Some?
  {
    if f != fields[0] {
      PresentKey(fields[1..], f);
    }
  }

  // ----- where new keys are documented to go -----

  predicate IsKnownKey(key: (Key, nat)) {
    key.0.StrKey? && key.0.s in PROFILE_KEY_ORDER
  }

  // The known keys, or the others, in order.
  function Chosen(keys: seq<(Key, nat)>, known: bool): seq<(Key, nat)> {
    if keys == [] then [] else (if IsKnownKey(keys[0]) == known then [keys[0]] else []) + Chosen(keys[1..], known)
  }

  // The number of keys up to the last known one.
  function UpToKnown(keys: seq<(Key, nat)>): (n: nat)
    ensures n <= |keys|
    ensures n > 0 ==> IsKnownKey(keys[n - 1])
    ensures forall i :: n <= i < |keys| ==> !IsKnownKey(keys[i])
  {
    hide PROFILE_KEY_ORDER;
    if keys == [] then 0
    else if IsKnownKey(keys[|keys| - 1]) then |keys|
    else
      var init := keys[..|keys| - 1];
      assert forall i :: 0 <= i < |init| ==> init[i] == keys[i];
      UpToKnown(init)
  }

  // New known keys right after the last known key, or at the top if there is none; new
  // unknown keys at the end.
  function DocumentedKeys(pairs: seq<Pair>, config: Config): seq<(Key, nat)> {
    var kept, added := Surviving(KeyList(pairs), config, Managed(config)), New(pairs, Managed(config));
    kept[..UpToKnown(kept)] + Chosen(added, true) + kept[UpToKnown(kept)..] + Chosen(added, false)
  }

  lemma {:induction false} ChosenKnown(keys: seq<(Key, nat)>)
    ensures forall i :: 0 <= i < |Chosen(keys, true)| ==> IsKnownKey(Chosen(keys, true)[i])
    ensures Chosen(keys, true) == [] ==> Chosen(keys, false) == keys
    ensures |Chosen(keys, true)| + |Chosen(keys, false)| == |keys|
  {
    hide IsKnownKey;
    if keys != [] {
      ChosenKnown(keys[1..]);
      assert keys == [keys[0]] + keys[1..];
    }
  }

  // The extras use no known key.
  ghost predicate ExtrasUnknown(config: Config) {
    forall f :: f in ExtrasOf(config.extras) ==> f.key !in PROFILE_KEY_ORDER
  }

  // A save puts the keys where they are documented to go exactly when no known key is
  // new, or the last surviving key is a known one, or no key survives; provided that no
  // known key comes in behind an unknown one, as an extra.
  lemma PlacedIff(root: Node, config: Config)
    requires DistinctKeys(RootPairs(root)) && DistinctFields(ExtrasOf(config.extras))
    ensures var pairs := RootPairs(root);
            var kept, added := Surviving(KeyList(pairs), config, Managed(config)), New(pairs, Managed(config));
            var known, others := Chosen(added, true), Chosen(added, false);
            && (KeyList(SetPairs(pairs, config)) == DocumentedKeys(pairs, config) <==>
                  known == [] || (added == known + others && (kept == [] || IsKnownKey(kept[|kept| - 1]))))
            && (ExtrasUnknown(config) ==> added == known + others)
  {
    hide PROFILE_KEY_ORDER, Managed, KeyList, Surviving, New, Chosen, IsKnownKey, UpToKnown, DistinctKeys, SetPairs, DistinctFields, ExtrasUnknown;
    var pairs := RootPairs(root);
    var kept, added := Surviving(KeyList(pairs), config, Managed(config)), New(pairs, Managed(config));
    SetOrder(root, config);
    if ExtrasUnknown(config) {
      KnownFirst(pairs, config);
    }
    ChosenKnown(added);
    PlacedFrom(kept, added, Chosen(added, true), Chosen(added, false));
  }

  lemma PlacedFrom(kept: seq<(Key, nat)>, added: seq<(Key, nat)>, known: seq<(Key, nat)>, others: seq<(Key, nat)>)
    requires forall i :: 0 <= i < |known| ==> IsKnownKey(known[i])
    requires |added| == |known| + |others| && (known == [] ==> added == others)
    ensures var n := UpToKnown(kept);
            kept + added == kept[..n] + known + kept[n..] + others <==>
              known == [] || (added == known + others && (kept == [] || IsKnownKey(kept[|kept| - 1])))
  {
    hide IsKnownKey, UpToKnown;
    var n := UpToKnown(kept);
    var front, back := kept[..n], kept[n..];
    assert kept == front + back;
    if known == [] {
      assert front + known == front;
    } else if n == |kept| {
      Behind(kept, added, known, others);
      assert front == kept && back == [];
      assert kept + known + back == kept + known;
    } else {
      assert back[0] == kept[n];
      Displaced(front, back, added, known, others);
    }
  }

  lemma Behind(kept: seq<(Key, nat)>, added: seq<(Key, nat)>, known: seq<(Key, nat)>, others: seq<(Key, nat)>)
    requires |added| == |known| + |others|
    ensures kept + added == kept + known + others <==> added == known + others
  {
    assert kept + known + others == kept + (known + others);
    assert (kept + added)[|kept|..] == added;
    assert (kept + (known + others))[|kept|..] == known + others;
  }

  lemma Displaced(front: seq<(Key, nat)>, back: seq<(Key, nat)>, added: seq<(Key, nat)>, known: seq<(Key, nat)>, others: seq<(Key, nat)>)
    requires known != [] && back != [] && known[0] != back[0]
    ensures front + back + added != front + known + back + others
  {
    var left, right := front + back + added, front + known + back + others;
    assert left[|front|] == back[0] && right[|front|] == known[0];
  }

  // ----- known keys are written before the others -----

  ghost predicate Listed(fields: seq<Field>, known: bool) {
    forall f :: f in fields ==> (f.key in PROFILE_KEY_ORDER <==> known)
  }

  lemma {:induction false} PutListed(fields: seq<Field>, key: string, value: Json, known: bool)
    requires Listed(fields, known) && (key in PROFILE_KEY_ORDER <==> known)
    ensures Listed(PutField(fields, key, value), known)
  {
    hide PROFILE_KEY_ORDER;
    if fields != [] && fields[0].key != key {
      PutListed(fields[1..], key, value, known);
    }
  }

  lemma {:induction false} PutManagedListed(fields: seq<Field>, config: Config, order: seq<string>)
    requires Listed(fields, true) && forall k :: k in order ==> k in PROFILE_KEY_ORDER
    ensures Listed(PutManaged(fields, config, order), true)
    decreases |order|
  {
    hide PROFILE_KEY_ORDER, ManagedAt, Listed;
    if order != [] {
      var v := ManagedAt(config, order[0]);
      if v.Some? {
        PutListed(fields, order[0], v.value, true);
      }
      PutManagedListed(if v.Some? then PutField(fields, order[0], v.value) else fields, config, order[1..]);
    }
  }

  lemma {:induction false} PutBehind(known: seq<Field>, others: seq<Field>, key: string, value: Json)
    requires Listed(known, true) && key !in PROFILE_KEY_ORDER
    ensures PutField(known + others, key, value) == known + PutField(others, key, value)
  {
    hide PROFILE_KEY_ORDER;
    if known == [] {
      assert known + others == others;
    } else {
      assert (known + others)[1..] == known[1..] + others;
      PutBehind(known[1..], others, key, value);
    }
  }

  lemma {:induction false} PutAllBehind(known: seq<Field>, others: seq<Field>, more: seq<Field>)
    requires Listed(known, true) && Listed(others, false) && Listed(more, false)
    ensures PutFields(known + others, more) == known + PutFields(others, more)
    ensures Listed(PutFields(others, more), false)
    decreases |more|
  {
    hide PROFILE_KEY_ORDER;
    if more != [] {
      PutBehind(known, others, more[0].key, more[0].value);
      PutListed(others, more[0].key, more[0].value, false);
      PutAllBehind(known, PutField(others, more[0].key, more[0].value), more[1..]);
    }
  }

  lemma {:induction false} InsertMember(fields: seq<Field>, f: Field, g: Field)
    requires g in InsertField(fields, f)
    ensures g == f || g in fields
  {
    if fields != [] && !Less(f.key, fields[0].key) && g != fields[0] {
      InsertMember(fields[1..], f, g);
    }
  }

  lemma {:induction false} SortMember(fields: seq<Field>, g: Field)
    requires g in SortFields(fields)
    ensures g in fields
  {
    if fields != [] {
      InsertMember(SortFields(fields[1..]), fields[0], g);
      if g != fields[0] {
        SortMember(fields[1..], g);
      }
    }
  }

  lemma {:induction false} NewSplit(pairs: seq<Pair>, a: seq<Field>, b: seq<Field>)
    ensures New(pairs, a + b) == New(pairs, a) + New(pairs, b)
    decreases |a|
  {
    if a == [] {
      assert a + b == b;
    } else {
      assert (a + b)[1..] == a[1..] + b;
      NewSplit(pairs, a[1..], b);
    }
  }

  lemma ChosenCons(key: (Key, nat), rest: seq<(Key, nat)>, known: bool)
    ensures Chosen([key] + rest, known) == if IsKnownKey(key) == known then [key] + Chosen(rest, known) else Chosen(rest, known)
  {
    hide IsKnownKey;
    assert ([key] + rest)[1..] == rest;
  }

  lemma {:induction false} NewListed(pairs: seq<Pair>, fields: seq<Field>, known: bool)
    requires Listed(fields, known)
    ensures Chosen(New(pairs, fields), known) == New(pairs, fields) && Chosen(New(pairs, fields), !known) == []
    decreases |fields|
  {
    hide PROFILE_KEY_ORDER;
    if fields != [] {
      NewListed(pairs, fields[1..], known);
      assert fields[0] in fields;
      var key: (Key, nat) := (StrKey(fields[0].key), 0);
      assert New(pairs, fields) == if Lookup(pairs, fields[0].key).Some? then New(pairs, fields[1..]) else [key] + New(pairs, fields[1..]);
      ChosenCons(key, New(pairs, fields[1..]), known);
      ChosenCons(key, New(pairs, fields[1..]), !known);
      hide Chosen, Lookup;
    } else {
      assert New(pairs, fields) == [];
    }
  }

  lemma ChosenNone(known: bool)
    ensures Chosen([], known) == []
  {
  }

  lemma {:induction false} ChosenSplit(a: seq<(Key, nat)>, b: seq<(Key, nat)>, known: bool)
    ensures Chosen(a + b, known) == Chosen(a, known) + Chosen(b, known)
    decreases |a|
  {
    hide Chosen, IsKnownKey;
    ChosenNone(known);
    if a == [] {
      assert a + b == b;
      assert Chosen(a, known) + Chosen(b, known) == Chosen(b, known);
    } else {
      var key, rest := a[0], a[1..];
      assert a + b == [key] + (rest + b) && a == [key] + rest;
      ChosenSplit(rest, b, known);
      ChosenCons(key, rest + b, known);
      ChosenCons(key, rest, known);
      assert [key] + (Chosen(rest, known) + Chosen(b, known)) == [key] + Chosen(rest, known) + Chosen(b, known);
    }
  }

  lemma KnownFirst(pairs: seq<Pair>, config: Config)
    requires ExtrasUnknown(config)
    ensures var added := New(pairs, Managed(config)); added == Chosen(added, true) + Chosen(added, false)
  {
    hide PROFILE_KEY_ORDER, PutManaged, PutFields, SortFields, New, Chosen;
    var known, extras := PutManaged([], config, PROFILE_KEY_ORDER), SortFields(ExtrasOf(config.extras));
    PutManagedListed([], config, PROFILE_KEY_ORDER);
    forall f | f in extras
      ensures f in ExtrasOf(config.extras)
    {
      SortMember(ExtrasOf(config.extras), f);
    }
    PutAllBehind(known, [], extras);
    assert known + [] == known;
    var others := PutFields([], extras);
    NewSplit(pairs, known, others);
    NewListed(pairs, known, true);
    NewListed(pairs, others, false);
    ChosenSplit(New(pairs, known), New(pairs, others), true);
    ChosenSplit(New(pairs, known), New(pairs, others), false);
  }

  // ----- keys that are not put where they are documented to go -----

  lemma {:induction false} NothingManaged(fields: seq<Field>, config: Config, order: seq<string>)
    requires forall k :: k in order ==> ManagedAt(config, k).None?
    ensures PutManaged(fields, config, order) == fields
    decreases |order|
  {
    hide ManagedAt;
    if order != [] {
      NothingManaged(fields, config, order[1..]);
    }
  }

  // Settings with one or two fields.
  function OneSetting(value: Json): Config {
    Config(map["mode" := value], None, None, None)
  }

  function TwoSettings(value: Json, level: Json): Config {
    Config(map["mode" := value, "log-level" := level], None, None, None)
  }

  lemma ModeIsFirst()
    ensures |PROFILE_KEY_ORDER| == 23 && PROFILE_KEY_ORDER[0] == "mode"
    ensures forall i :: 1 <= i < 23 ==> PROFILE_KEY_ORDER[i] != "mode"
  {
  }

  lemma LogLevelIsSecond()
    ensures |PROFILE_KEY_ORDER| == 23 && PROFILE_KEY_ORDER[1] == "log-level"
    ensures forall i :: 2 <= i < 23 ==> PROFILE_KEY_ORDER[i] != "log-level"
  {
  }

  lemma DnsIsUnknown()
    ensures "dns" !in PROFILE_KEY_ORDER
  {
  }

  lemma OneManaged(value: Json)
    ensures Managed(OneSetting(value)) == [Field("mode", value)]
  {
    ModeIsFirst();
    hide PROFILE_KEY_ORDER;
    var config := OneSetting(value);
    NothingManaged([Field("mode", value)], config, PROFILE_KEY_ORDER[1..]);
  }

  lemma TwoManaged(value: Json, level: Json)
    ensures Managed(TwoSettings(value, level)) == [Field("mode", value), Field("log-level", level)]
  {
    ModeIsFirst();
    LogLevelIsSecond();
    hide PROFILE_KEY_ORDER;
    var config, first := TwoSettings(value, level), [Field("mode", value)];
    var both := [Field("mode", value), Field("log-level", level)];
    assert PutField(first, "log-level", level) == both by {
      assert first[1..] == [] && "mode" != "log-level";
    }
    assert PROFILE_KEY_ORDER[1..][1..] == PROFILE_KEY_ORDER[2..];
    NothingManaged(both, config, PROFILE_KEY_ORDER[2..]);
    assert PutManaged(first, config, PROFILE_KEY_ORDER[1..]) == PutManaged(both, config, PROFILE_KEY_ORDER[2..]);
  }

  function PlainKey(s: string): (Key, nat) {
    (StrKey(s), 0)
  }

  lemma ModeAndDns()
    ensures IsKnownKey(PlainKey("mode")) && IsKnownKey(PlainKey("log-level")) && !IsKnownKey(PlainKey("dns"))
  {
    ModeIsFirst();
    LogLevelIsSecond();
    DnsIsUnknown();
    hide PROFILE_KEY_ORDER;
    assert PROFILE_KEY_ORDER[0] in PROFILE_KEY_ORDER && PROFILE_KEY_ORDER[1] in PROFILE_KEY_ORDER;
  }

  lemma ChosenOne(key: (Key, nat))
    requires IsKnownKey(key)
    ensures Chosen([key], true) == [key] && Chosen([key], false) == []
  {
    assert [key][1..] == [];
  }

  lemma NoKeys(config: Config, managed: seq<Field>)
    ensures KeyList([]) == [] && Surviving([], config, managed) == []
  {
  }

  lemma DnsStays(config: Config, managed: seq<Field>)
    requires config.extras.None?
    ensures !IsRemoved(config, managed, "dns")
  {
    DnsIsUnknown();
  }

  lemma ModeStays(config: Config, managed: seq<Field>)
    requires managed != [] && managed[0].key == "mode"
    ensures !IsRemoved(config, managed, "mode")
  {
  }

  lemma DnsSurvives(dns: Node, config: Config, managed: seq<Field>)
    requires config.extras.None?
    ensures var pairs := [Pair(StrKey("dns"), 0, dns)];
            KeyList(pairs) == [PlainKey("dns")] && Surviving(KeyList(pairs), config, managed) == [PlainKey("dns")]
  {
    hide KeyList, Surviving, IsRemoved;
    var p := Pair(StrKey("dns"), 0, dns);
    KeyListCons(p, []);
    SurvivingCons(PlainKey("dns"), [], config, managed);
    DnsStays(config, managed);
    NoKeys(config, managed);
    assert [p] == [p] + [] && [PlainKey("dns")] == [PlainKey("dns")] + [];
    assert KeyList([p]) == [PlainKey("dns")];
    var d := PlainKey("dns");
    assert d.0 == StrKey("dns");
    assert Surviving([d] + [], config, managed) == [d] + [] == [d];
    assert Surviving([d], config, managed) == [d];
  }

  lemma ModeIsNew(dns: Node, value: Json)
    ensures var pairs := [Pair(StrKey("dns"), 0, dns)];
            DistinctKeys(pairs) && New(pairs, [Field("mode", value)]) == [PlainKey("mode")]
  {
    var pairs, managed := [Pair(StrKey("dns"), 0, dns)], [Field("mode", value)];
    assert pairs[1..] == [] && managed[1..] == [] && "dns" != "mode";
    assert Lookup(pairs, "mode").None?;
    assert New(pairs, managed[1..]) == [];
    assert New(pairs, managed) == [PlainKey("mode")] + New(pairs, managed[1..]);
  }

  // A document with dns only, and a new mode: it goes to the end, not to the top.
  lemma NewKeyNotAtTheTop(dns: Node, value: Json)
    ensures var pairs := [Pair(StrKey("dns"), 0, dns)];
            && KeyList(SetPairs(pairs, OneSetting(value))) == [PlainKey("dns"), PlainKey("mode")]
            && DocumentedKeys(pairs, OneSetting(value)) == [PlainKey("mode"), PlainKey("dns")]
  {
    hide PROFILE_KEY_ORDER, Managed, SetPairs, IsKnownKey, Chosen, Surviving, KeyList, New, DistinctKeys, UpToKnown;
    var pairs, config := [Pair(StrKey("dns"), 0, dns)], OneSetting(value);
    OneManaged(value);
    ModeIsNew(dns, value);
    DnsSurvives(dns, config, Managed(config));
    SetOrder(YMap(pairs, 0), config);
    ModeAndDns();
    ChosenOne(PlainKey("mode"));
    assert UpToKnown([PlainKey("dns")]) == 0;
  }

  lemma ModeSurvives(mode: Node, dns: Node, config: Config, managed: seq<Field>)
    requires config.extras.None? && managed != [] && managed[0].key == "mode"
    ensures var pairs := [Pair(StrKey("mode"), 0, mode), Pair(StrKey("dns"), 0, dns)];
            && KeyList(pairs) == [PlainKey("mode"), PlainKey("dns")]
            && Surviving(KeyList(pairs), config, managed) == [PlainKey("mode"), PlainKey("dns")]
  {
    hide KeyList, Surviving, IsRemoved;
    var p, q := Pair(StrKey("mode"), 0, mode), Pair(StrKey("dns"), 0, dns);
    KeyListCons(p, [q]);
    DnsSurvives(dns, config, managed);
    SurvivingCons(PlainKey("mode"), [PlainKey("dns")], config, managed);
    ModeStays(config, managed);
    assert [p, q] == [p] + [q] && [PlainKey("mode"), PlainKey("dns")] == [PlainKey("mode")] + [PlainKey("dns")];
  }

  lemma LogLevelIsNew(mode: Node, dns: Node, value: Json, level: Json)
    ensures var pairs := [Pair(StrKey("mode"), 0, mode), Pair(StrKey("dns"), 0, dns)];
            DistinctKeys(pairs) && New(pairs, [Field("mode", value), Field("log-level", level)]) == [PlainKey("log-level")]
  {
    var p, q, f := Pair(StrKey("mode"), 0, mode), Pair(StrKey("dns"), 0, dns), Field("log-level", level);
    var pairs, managed := [p, q], [Field("mode", value), f];
    assert pairs[1..] == [q] && [q][1..] == [] && managed[1..] == [f] && [f][1..] == [];
    assert "dns" != "mode" && "dns" != "log-level" && "mode" != "log-level";
    assert Lookup([q], "mode").None? && Lookup([q], "log-level").None?;
    assert DistinctKeys([q]);
    assert New(pairs, []) == [];
    assert New(pairs, [f]) == [PlainKey("log-level")];
  }

  lemma UpToFirst(a: (Key, nat), b: (Key, nat))
    requires IsKnownKey(a) && !IsKnownKey(b)
    ensures UpToKnown([a, b]) == 1
  {
    hide IsKnownKey;
    assert [a, b][..1] == [a];
  }

  // A document with mode and dns, and a new log-level: it goes to the end, not behind mode.
  lemma NewKeyNotBehindKnown(mode: Node, dns: Node, value: Json, level: Json)
    ensures var pairs := [Pair(StrKey("mode"), 0, mode), Pair(StrKey("dns"), 0, dns)];
            && KeyList(SetPairs(pairs, TwoSettings(value, level))) == [PlainKey("mode"), PlainKey("dns"), PlainKey("log-level")]
            && DocumentedKeys(pairs, TwoSettings(value, level)) == [PlainKey("mode"), PlainKey("log-level"), PlainKey("dns")]
  {
    hide PROFILE_KEY_ORDER, Managed, SetPairs, IsKnownKey, Chosen, Surviving, KeyList, New, DistinctKeys, UpToKnown;
    var pairs, config := [Pair(StrKey("mode"), 0, mode), Pair(StrKey("dns"), 0, dns)], TwoSettings(value, level);
    var m, d := PlainKey("mode"), PlainKey("dns");
    TwoManaged(value, level);
    LogLevelIsNew(mode, dns, value, level);
    ModeSurvives(mode, dns, config, Managed(config));
    SetOrder(YMap(pairs, 0), config);
    ModeAndDns();
    ChosenOne(PlainKey("log-level"));
    UpToFirst(m, d);
    assert [m, d][..1] == [m] && [m, d][1..] == [d];
  }
}
