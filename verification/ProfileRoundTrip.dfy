// Reading back what was written, and writing back what was read.
module ProfileRoundTrip {
  import opened Outcome
  import opened ProfileTree
  import opened ProfileLens
  import opened ProfileLaws

  // ----- well-formed documents and settings -----

  // No two keys with the same text, at every level.
  ghost predicate TextKeyed(root: Node) {
    KeyedFields(ToFields(RootPairs(root)))
  }

  // String keys, none twice, at every level.
  ghost predicate DocKeyed(root: Node) {
    StringKeyPairs(RootPairs(root)) && TextKeyed(root)
  }

  // No key that is not a string has the text of a known key, or of an extra to write.
  ghost predicate Untwinned(pairs: seq<Pair>, config: Config) {
    forall p :: p in pairs && p.key.OtherKey? ==> p.key.text !in PROFILE_KEY_ORDER && FieldAt(ExtrasOf(config.extras), p.key.text).None?
  }

  // Known fields of the listed keys and the right type; extras with other keys.
  ghost predicate TypedSub(sub: Sub, order: seq<string>, hasType: Json -> bool) {
    && (forall k :: k in sub.known ==> k in order && sub.known[k].JScalar? && hasType(sub.known[k]))
    && KeyedFields(ExtrasOf(sub.extras))
    && (forall k :: k in order ==> FieldAt(ExtrasOf(sub.extras), k).None?)
  }

  ghost predicate StringList(j: Json) {
    j.JArr? && forall i :: 0 <= i < |j.items| ==> IsString(j.items[i])
  }

  ghost predicate TypedKnown(known: map<string, Json>) {
    forall k :: k in known ==> IsSimple(k) && if k == "authentication" then StringList(known[k]) else HasType(k, known[k])
  }

  ghost predicate Typed(config: Config) {
    && TypedKnown(config.known)
    && (config.geoxUrl.Some? ==> TypedSub(config.geoxUrl.value, GEOX_URL_KEY_ORDER, IsString))
    && (config.profile.Some? ==> TypedSub(config.profile.value, PROFILE_NESTED_KEY_ORDER, IsBool))
    && KeyedFields(ExtrasOf(config.extras))
    && (forall k :: k in PROFILE_KEY_ORDER + SECTION_KEYS ==> FieldAt(ExtrasOf(config.extras), k).None?)
  }

  lemma {:induction false} TextKeysDistinct(pairs: seq<Pair>)
    requires KeyedFields(ToFields(pairs))
    ensures DistinctKeys(pairs)
    ensures StringKeyPairs(pairs) ==> AllStrings(pairs)
  {
    hide ToJson, Keyed, StringKeys;
    if pairs != [] {
      assert ToFields(pairs)[1..] == ToFields(pairs[1..]);
      TextKeysDistinct(pairs[1..]);
      if Lookup(pairs[1..], KeyText(pairs[0].key)).Some? {
        LookupIsField(pairs[1..], KeyText(pairs[0].key));
      }
    }
  }

  // Distinct keys with keyed values make a keyed object.
  lemma {:induction false} KeyedFromAt(fields: seq<Field>)
    requires DistinctFields(fields)
    requires forall k :: FieldAt(fields, k).Some? ==> Keyed(FieldAt(fields, k).value)
    ensures KeyedFields(fields)
  {
    if fields != [] {
      hide Keyed;
      assert FieldAt(fields, fields[0].key) == Some(fields[0].value);
      forall k | FieldAt(fields[1..], k).Some?
        ensures Keyed(FieldAt(fields[1..], k).value)
      {
        assert FieldAt(fields, k) == FieldAt(fields[1..], k);
      }
      KeyedFromAt(fields[1..]);
    }
  }

  lemma {:induction false} NaNFreeFromAt(fields: seq<Field>)
    requires DistinctFields(fields)
    requires forall k :: FieldAt(fields, k).Some? ==> NaNFree(FieldAt(fields, k).value)
    ensures NaNFreeFields(fields)
  {
    if fields != [] {
      hide NaNFree;
      assert FieldAt(fields, fields[0].key) == Some(fields[0].value);
      forall k | FieldAt(fields[1..], k).Some?
        ensures NaNFree(FieldAt(fields[1..], k).value)
      {
        assert FieldAt(fields, k) == FieldAt(fields[1..], k);
      }
      NaNFreeFromAt(fields[1..]);
    }
  }

  lemma {:induction false} NaNFreeAt(fields: seq<Field>, k: string)
    requires NaNFreeFields(fields) && FieldAt(fields, k).Some?
    ensures NaNFree(FieldAt(fields, k).value)
  {
    hide NaNFree;
    if fields[0].key != k {
      NaNFreeAt(fields[1..], k);
    }
  }

  lemma {:induction false} ScalarsKeyed(items: seq<Json>)
    requires forall i :: 0 <= i < |items| ==> items[i].JScalar?
    ensures KeyedItems(items)
  {
    if items != [] {
      ScalarsKeyed(items[1..]);
    }
  }

  lemma BuildSubKeyed(sub: Sub, order: seq<string>, hasType: Json -> bool)
    requires TypedSub(sub, order, hasType)
    ensures KeyedFields(BuildSub(order, sub))
  {
    hide BuildSub, FieldAt;
    KeyedDistinct(ExtrasOf(sub.extras));
    forall k | FieldAt(BuildSub(order, sub), k).Some?
      ensures Keyed(FieldAt(BuildSub(order, sub), k).value)
    {
      BuildSubAt(order, sub, k);
      if FieldAt(ExtrasOf(sub.extras), k).Some? {
        FieldKeyed(ExtrasOf(sub.extras), k);
      }
    }
    BuildSubAt(order, sub, "");
    KeyedFromAt(BuildSub(order, sub));
  }

  lemma ValueKeyed(config: Config, k: string)
    requires Typed(config) && ValueFor(config, k).Some?
    ensures Keyed(ValueFor(config, k).value)
  {
    hide PROFILE_KEY_ORDER, SECTION_KEYS, GEOX_URL_KEY_ORDER, PROFILE_NESTED_KEY_ORDER, BuildSub, TypedSub, FieldAt;
    if FieldAt(ExtrasOf(config.extras), k).Some? {
      FieldKeyed(ExtrasOf(config.extras), k);
    } else if k == "geox-url" {
      BuildSubKeyed(config.geoxUrl.value, GEOX_URL_KEY_ORDER, IsString);
    } else if k == "profile" {
      BuildSubKeyed(config.profile.value, PROFILE_NESTED_KEY_ORDER, IsBool);
    } else if k == "authentication" {
      ScalarsKeyed(config.known[k].items);
    }
  }

  lemma WrittenMeans(existing: Option<Node>, v: Json)
    requires existing.Some? ==> Keyed(ToJson(existing.value))
    requires Keyed(v)
    ensures Meaning(ToJson(Written(existing, v))) == Meaning(v)
  {
    hide IsNodeEquivalent, Meaning, ToJson, Keyed, StringKeys, CreateNode, NaNFree;
    CreatedMeans(v);
    if existing.Some? {
      EquivalentIff(existing.value, v);
    }
  }

  // ----- fields and string keys -----

  // No key that is not a string has this text.
  ghost predicate NoTwin(pairs: seq<Pair>, k: string) {
    forall p :: p in pairs ==> p.key != OtherKey(k)
  }

  lemma {:induction false} LookupNoTwin(pairs: seq<Pair>, k: string)
    requires NoTwin(pairs, k)
    ensures FieldAt(ToFields(pairs), k) == match Lookup(pairs, k) case Some(n) => Some(ToJson(n)) case None => None
  {
    hide ToJson;
    if pairs != [] {
      assert pairs[0] in pairs;
      LookupNoTwin(pairs[1..], k);
      assert ToFields(pairs)[1..] == ToFields(pairs[1..]);
    }
  }

  lemma {:induction false} DeleteField(pairs: seq<Pair>, key: string, k: string)
    requires k != key
    ensures FieldAt(ToFields(DeleteKey(pairs, key)), k) == FieldAt(ToFields(pairs), k)
    ensures NoTwin(pairs, k) ==> NoTwin(DeleteKey(pairs, key), k)
  {
    hide ToJson;
    if pairs != [] {
      assert pairs == [pairs[0]] + pairs[1..];
      assert ToFields(pairs)[1..] == ToFields(pairs[1..]);
      if pairs[0].key != StrKey(key) {
        DeleteField(pairs[1..], key, k);
        var rest := DeleteKey(pairs[1..], key);
        assert ([pairs[0]] + rest)[1..] == rest;
        assert ToFields([pairs[0]] + rest)[1..] == ToFields(rest);
      }
    }
  }

  lemma {:induction false} SetField(pairs: seq<Pair>, key: string, node: Node, k: string)
    requires k != key
    ensures FieldAt(ToFields(SetKey(pairs, key, node)), k) == FieldAt(ToFields(pairs), k)
  {
    hide ToJson;
    if pairs == [] {
      assert ToFields([Pair(StrKey(key), 0, node)])[1..] == [];
    } else {
      assert ToFields(pairs)[1..] == ToFields(pairs[1..]);
      var p, rest := pairs[0], SetKey(pairs[1..], key, node);
      if p.key == StrKey(key) {
        assert ([p.(value := node)] + pairs[1..])[1..] == pairs[1..];
        assert ToFields([p.(value := node)] + pairs[1..])[1..] == ToFields(pairs[1..]);
      } else {
        SetField(pairs[1..], key, node, k);
        assert ([p] + rest)[1..] == rest;
        assert ToFields([p] + rest)[1..] == ToFields(rest);
      }
    }
  }

  // Deleting and setting string keys brings in no other key.
  lemma {:induction false} SetNoTwin(pairs: seq<Pair>, key: string, node: Node, k: string)
    requires NoTwin(pairs, k)
    ensures NoTwin(SetKey(pairs, key, node), k) && NoTwin(DeleteKey(pairs, key), k)
  {
    if pairs != [] {
      assert pairs == [pairs[0]] + pairs[1..];
      assert pairs[0] in pairs;
      SetNoTwin(pairs[1..], key, node, k);
    }
  }

  lemma {:induction false} DeletedField(pairs: seq<Pair>, keys: seq<string>, k: string)
    ensures k !in keys ==> FieldAt(ToFields(DeleteKeys(pairs, keys)), k) == FieldAt(ToFields(pairs), k)
    ensures NoTwin(pairs, k) ==> NoTwin(DeleteKeys(pairs, keys), k)
    decreases |keys|
  {
    hide FieldAt, ToFields, NoTwin, DeleteKey;
    if keys != [] {
      DeletedField(DeleteKey(pairs, keys[0]), keys[1..], k);
      if NoTwin(pairs, k) {
        SetNoTwin(pairs, keys[0], YSeq([], 0), k);
      }
      if k != keys[0] {
        DeleteField(pairs, keys[0], k);
      }
    }
  }

  lemma {:induction false} UpdatedField(pairs: seq<Pair>, managed: seq<Field>, k: string)
    ensures FieldAt(managed, k).None? ==> FieldAt(ToFields(UpdatedAll(pairs, managed)), k) == FieldAt(ToFields(pairs), k)
    ensures NoTwin(pairs, k) ==> NoTwin(UpdatedAll(pairs, managed), k)
    decreases |managed|
  {
    hide ToFields, NoTwin, SetKey, Lookup, IsNodeEquivalent;
    if managed != [] {
      var f := managed[0];
      UpdatedField(Updated(pairs, f), managed[1..], k);
      if NoTwin(pairs, k) {
        SetNoTwin(pairs, f.key, CreateNode(f.value), k);
      }
      if k != f.key {
        SetField(pairs, f.key, CreateNode(f.value), k);
      }
    }
  }

  // The fields of a saved document are its string keys, and the other keys it had.
  lemma SavedField(root: Node, config: Config, k: string)
    requires TextKeyed(root) && Untwinned(RootPairs(root), config) && DistinctFields(ExtrasOf(config.extras))
    ensures var pairs := RootPairs(root);
            var after := SetPairs(pairs, config);
            if NoTwin(pairs, k) then
              && FieldAt(ToFields(after), k) == (match Lookup(after, k) case Some(n) => Some(ToJson(n)) case None => None)
              && FieldAt(ToFields(pairs), k) == (match Lookup(pairs, k) case Some(n) => Some(ToJson(n)) case None => None)
            else
              ValueFor(config, k).None? && k !in PROFILE_KEY_ORDER && FieldAt(ToFields(after), k) == FieldAt(ToFields(pairs), k)
  {
    hide PROFILE_KEY_ORDER, FieldAt, Lookup, ToJson, ToFields, Managed, Removals, DeleteKeys, UpdatedAll, ValueFor, ManagedAt, IsRemoved, DistinctFields,
         KeyedFields;
    var pairs, managed := RootPairs(root), Managed(config);
    var kept := DeleteKeys(pairs, Removals(pairs, config, managed));
    DeletedField(pairs, Removals(pairs, config, managed), k);
    UpdatedField(kept, managed, k);
    ManagedFieldAt(config, k);
    if NoTwin(pairs, k) {
      LookupNoTwin(pairs, k);
      LookupNoTwin(SetPairs(pairs, config), k);
    } else {
      NothingFor(config, k);
      RemovalsIff(pairs, config, managed, k);
      RemovedIff(config, k);
    }
  }

  lemma NothingFor(config: Config, k: string)
    requires k !in PROFILE_KEY_ORDER && FieldAt(ExtrasOf(config.extras), k).None?
    ensures ValueFor(config, k).None?
  {
  }

  // The document after a write, key by key, up to the order of nested fields.
  lemma SetMeans(root: Node, config: Config, k: string)
    requires TextKeyed(root) && Untwinned(RootPairs(root), config) && Typed(config)
    ensures var after := FieldAt(RootFields(SetConfig(root, config)), k);
            match ValueFor(config, k)
            case Some(v) => after.Some? && Meaning(after.value) == Meaning(v)
            case None => after == if k in PROFILE_KEY_ORDER then None else FieldAt(RootFields(root), k)
  {
    hide PROFILE_KEY_ORDER, SECTION_KEYS, FieldAt, Lookup, Meaning, ToJson, ToFields, SetPairs, ValueFor, Written,
         TypedKnown, TypedSub, Keyed, KeyedFields, StringKeys, StringKeyPairs, DistinctKeys, DistinctFields;
    var pairs := RootPairs(root);
    KeyedDistinct(ExtrasOf(config.extras));
    TextKeysDistinct(pairs);
    SetLookup(root, config, k);
    SavedField(root, config, k);
    assert RootFields(root) == ToFields(pairs) by { NoFields(root); }
    if ValueFor(config, k).Some? {
      ValueKeyed(config, k);
      if Lookup(pairs, k).Some? {
        LookupIsField(pairs, k);
        FieldKeyed(ToFields(pairs), k);
      }
      WrittenMeans(Lookup(pairs, k), ValueFor(config, k).value);
    }
  }

  lemma NoFields(root: Node)
    ensures RootFields(root) == ToFields(RootPairs(root))
  {
  }

  // ----- reading back what was written -----

  // A scalar, or a list of scalars, is determined by its meaning.
  lemma FlatMeaning(a: Json, b: Json)
    requires Meaning(a) == Meaning(b)
    requires b.JScalar? || (b.JArr? && forall i :: 0 <= i < |b.items| ==> b.items[i].JScalar?)
    ensures a == b
  {
    if b.JArr? {
      FlatItems(a.items, b.items);
    }
  }

  lemma {:induction false} FlatItems(a: seq<Json>, b: seq<Json>)
    requires ItemsMeaning(a) == ItemsMeaning(b)
    requires forall i :: 0 <= i < |b| ==> b[i].JScalar?
    ensures a == b
  {
    if b != [] {
      assert ItemsMeaning(a)[1..] == ItemsMeaning(a[1..]) && ItemsMeaning(b)[1..] == ItemsMeaning(b[1..]);
      assert ItemsMeaning(a)[0] == Meaning(a[0]) && ItemsMeaning(b)[0] == Meaning(b[0]);
      FlatItems(a[1..], b[1..]);
      assert a == [a[0]] + a[1..] && b == [b[0]] + b[1..];
    }
  }

  lemma {:induction false} TextsOfStrings(items: seq<Json>, show: Json -> string)
    ensures Texts(items, show) == items <==> forall i :: 0 <= i < |items| ==> IsString(items[i])
  {
    if items != [] {
      TextsOfStrings(items[1..], show);
      assert items == [items[0]] + items[1..];
      var t := Texts(items, show);
      assert t == [t[0]] + t[1..] && t[1..] == Texts(items[1..], show);
      if t == items {
        assert items[0] == t[0] && t[1..] == items[1..];
      }
    }
  }

  lemma KnownKeys()
    ensures "geox-url" in PROFILE_KEY_ORDER && "profile" in PROFILE_KEY_ORDER && "authentication" in PROFILE_KEY_ORDER
  {
    assert PROFILE_KEY_ORDER[12] == "geox-url" && PROFILE_KEY_ORDER[22] == "profile" && PROFILE_KEY_ORDER[21] == "authentication";
  }

  // An empty list of credentials is not written.
  function NormalKnown(known: map<string, Json>): map<string, Json> {
    map k | k in known && !(k == "authentication" && known[k] == JArr([])) :: known[k]
  }

  // A sub-section with nothing in it is not written.
  function NormalSub(sub: Option<Sub>, order: seq<string>): Option<Sub> {
    if sub.Some? && BuildSub(order, sub.value) != [] then sub else None
  }

  // Equal up to the order of the extras.
  ghost predicate SameSub(a: Option<Sub>, b: Option<Sub>) {
    && (a.Some? <==> b.Some?)
    && (a.Some? ==> a.value.known == b.value.known
                    && FieldsMeaning(ExtrasOf(a.value.extras)) == FieldsMeaning(ExtrasOf(b.value.extras)))
  }

  lemma ExtrasNone(config: Config, k: string)
    requires Typed(config) && k in PROFILE_KEY_ORDER
    ensures FieldAt(ExtrasOf(config.extras), k).None?
  {
    hide PROFILE_KEY_ORDER, SECTION_KEYS;
    assert k in PROFILE_KEY_ORDER + SECTION_KEYS;
  }

  lemma PutGetKnownAt(root: Node, config: Config, show: Json -> string, k: string)
    requires TextKeyed(root) && Untwinned(RootPairs(root), config) && Typed(config) && IsSimple(k)
    ensures var after := FieldAt(RootFields(SetConfig(root, config)), k);
            var projected := if after.Some? then Projected(k, after.value, show) else None;
            projected == if k in NormalKnown(config.known) then Some(config.known[k]) else None
  {
    hide PROFILE_KEY_ORDER, SECTION_KEYS, FieldAt, RootFields, SetConfig, TypedSub, KeyedFields, TextKeyed, Untwinned, Meaning;
    ExtrasNone(config, k);
    SetMeans(root, config, k);
    var after := FieldAt(RootFields(SetConfig(root, config)), k);
    if ValueFor(config, k).Some? {
      FlatMeaning(after.value, config.known[k]);
      if k == "authentication" {
        TextsOfStrings(config.known[k].items, show);
      }
    }
  }

  lemma PutGetKnown(root: Node, config: Config, show: Json -> string)
    requires TextKeyed(root) && Untwinned(RootPairs(root), config) && Typed(config)
    ensures KnownFields(RootFields(SetConfig(root, config)), show) == NormalKnown(config.known)
  {
    hide PROFILE_KEY_ORDER, SECTION_KEYS, FieldAt, RootFields, SetConfig, TypedSub, KeyedFields, TextKeyed, Untwinned, Projected, HasType, StringList;
    forall k | IsSimple(k)
      ensures k in KnownFields(RootFields(SetConfig(root, config)), show) <==> k in NormalKnown(config.known)
      ensures k in NormalKnown(config.known) ==>
                KnownFields(RootFields(SetConfig(root, config)), show)[k] == NormalKnown(config.known)[k]
    {
      PutGetKnownAt(root, config, show, k);
    }
  }

  lemma OthersMeaning(fields: seq<Field>, listed: seq<string>, k: string)
    ensures k in FieldsMeaning(Others(fields, listed)) <==> k !in listed && k in FieldsMeaning(fields)
    ensures k in FieldsMeaning(Others(fields, listed)) ==>
              FieldsMeaning(Others(fields, listed))[k] == FieldsMeaning(fields)[k]
  {
    hide FieldsMeaning, Meaning, Others, FieldAt;
    OthersAt(fields, listed, k);
    MeaningAt(fields, k);
    MeaningAt(Others(fields, listed), k);
  }

  // Reading a sub-section that means what was built gives back its parts.
  lemma SubRead(fields: seq<Field>, sub: Sub, order: seq<string>, hasType: Json -> bool)
    requires TypedSub(sub, order, hasType) && FieldsMeaning(fields) == FieldsMeaning(BuildSub(order, sub))
    ensures KnownSub(fields, order, hasType) == sub.known
    ensures FieldsMeaning(Others(fields, order)) == FieldsMeaning(ExtrasOf(sub.extras))
  {
    hide FieldsMeaning, Meaning, Others, FieldAt, BuildSub, KeyedFields;
    KeyedDistinct(ExtrasOf(sub.extras));
    forall k
      ensures k in KnownSub(fields, order, hasType) <==> k in sub.known
      ensures k in sub.known ==> KnownSub(fields, order, hasType)[k] == sub.known[k]
    {
      BuildSubAt(order, sub, k);
      MeaningAt(fields, k);
      MeaningAt(BuildSub(order, sub), k);
      if k in sub.known {
        FlatMeaning(FieldAt(fields, k).value, sub.known[k]);
      }
    }
    forall k
      ensures k in FieldsMeaning(Others(fields, order)) <==> k in FieldsMeaning(ExtrasOf(sub.extras))
      ensures k in FieldsMeaning(ExtrasOf(sub.extras)) ==>
                FieldsMeaning(Others(fields, order))[k] == FieldsMeaning(ExtrasOf(sub.extras))[k]
    {
      OthersMeaning(fields, order, k);
      BuildSubAt(order, sub, k);
      MeaningAt(BuildSub(order, sub), k);
      MeaningAt(ExtrasOf(sub.extras), k);
    }
  }

  lemma {:induction false} NoFieldsIff(fields: seq<Field>)
    ensures FieldsMeaning(fields) == map[] <==> fields == []
  {
    hide Meaning;
    if fields != [] {
      assert fields[0].key in FieldsMeaning(fields);
    }
  }

  lemma SubNotEmpty(sub: Sub, order: seq<string>, hasType: Json -> bool)
    requires TypedSub(sub, order, hasType)
    ensures BuildSub(order, sub) == [] <==> sub.known == map[] && ExtrasOf(sub.extras) == []
  {
    hide FieldsMeaning, Meaning, FieldAt, BuildSub, KeyedFields;
    KeyedDistinct(ExtrasOf(sub.extras));
    var built := BuildSub(order, sub);
    NoFieldsIff(built);
    NoFieldsIff(ExtrasOf(sub.extras));
    forall k
      ensures k in FieldsMeaning(built) <==> k in sub.known || k in FieldsMeaning(ExtrasOf(sub.extras))
    {
      BuildSubAt(order, sub, k);
      MeaningAt(built, k);
      MeaningAt(ExtrasOf(sub.extras), k);
    }
    if built == [] {
      assert forall k :: k in sub.known ==> k in FieldsMeaning(built);
      assert forall k :: k in FieldsMeaning(ExtrasOf(sub.extras)) ==> k in FieldsMeaning(built);
    }
  }

  lemma NonEmptyExtras(fields: seq<Field>)
    ensures ExtrasOf(NonEmpty(fields)) == fields
  {
  }

  lemma PutGetGeoxUrl(root: Node, config: Config)
    requires TextKeyed(root) && Untwinned(RootPairs(root), config) && Typed(config)
    ensures SameSub(AtKey(RootFields(SetConfig(root, config)), "geox-url", ProjectGeoxUrl), NormalSub(config.geoxUrl, GEOX_URL_KEY_ORDER))
  {
    hide PROFILE_KEY_ORDER, SECTION_KEYS, GEOX_URL_KEY_ORDER, FieldAt, RootFields, SetConfig, TextKeyed, Untwinned, TypedKnown,
         BuildSub, FieldsMeaning, Others, KnownSub, KeyedFields;
    KnownKeys();
    ExtrasNone(config, "geox-url");
    SetMeans(root, config, "geox-url");
    var after := FieldAt(RootFields(SetConfig(root, config)), "geox-url");
    if NormalSub(config.geoxUrl, GEOX_URL_KEY_ORDER).Some? {
      var sub := config.geoxUrl.value;
      SubRead(after.value.fields, sub, GEOX_URL_KEY_ORDER, IsString);
      SubNotEmpty(sub, GEOX_URL_KEY_ORDER, IsString);
      NonEmptyExtras(Others(after.value.fields, GEOX_URL_KEY_ORDER));
      NoFieldsIff(Others(after.value.fields, GEOX_URL_KEY_ORDER));
      NoFieldsIff(ExtrasOf(sub.extras));
    }
  }

  lemma PutGetProfile(root: Node, config: Config)
    requires TextKeyed(root) && Untwinned(RootPairs(root), config) && Typed(config)
    ensures SameSub(AtKey(RootFields(SetConfig(root, config)), "profile", ProjectProfileNested), NormalSub(config.profile, PROFILE_NESTED_KEY_ORDER))
  {
    hide PROFILE_KEY_ORDER, SECTION_KEYS, PROFILE_NESTED_KEY_ORDER, FieldAt, RootFields, SetConfig, TextKeyed, Untwinned, TypedKnown,
         BuildSub, FieldsMeaning, Others, KnownSub, KeyedFields;
    KnownKeys();
    ExtrasNone(config, "profile");
    SetMeans(root, config, "profile");
    var after := FieldAt(RootFields(SetConfig(root, config)), "profile");
    if NormalSub(config.profile, PROFILE_NESTED_KEY_ORDER).Some? {
      SubRead(after.value.fields, config.profile.value, PROFILE_NESTED_KEY_ORDER, IsBool);
      NonEmptyExtras(Others(after.value.fields, PROFILE_NESTED_KEY_ORDER));
    }
  }

  lemma PutGetExtras(root: Node, config: Config)
    requires TextKeyed(root) && Untwinned(RootPairs(root), config) && Typed(config)
    ensures var listed := PROFILE_KEY_ORDER + SECTION_KEYS;
            FieldsMeaning(Others(RootFields(SetConfig(root, config)), listed)) ==
            FieldsMeaning(Others(RootFields(root), listed)) + FieldsMeaning(ExtrasOf(config.extras))
  {
    hide PROFILE_KEY_ORDER, SECTION_KEYS, FieldAt, RootFields, SetConfig, TextKeyed, Untwinned, TypedKnown, TypedSub, FieldsMeaning,
         Meaning, Others, KeyedFields, ManagedAt;
    var listed := PROFILE_KEY_ORDER + SECTION_KEYS;
    var before, after := RootFields(root), RootFields(SetConfig(root, config));
    var extras := ExtrasOf(config.extras);
    forall k
      ensures k in FieldsMeaning(Others(after, listed)) <==> k in FieldsMeaning(Others(before, listed)) || k in FieldsMeaning(extras)
      ensures k in FieldsMeaning(Others(after, listed)) ==>
                FieldsMeaning(Others(after, listed))[k] ==
                (FieldsMeaning(Others(before, listed)) + FieldsMeaning(extras))[k]
    {
      SetMeans(root, config, k);
      OthersMeaning(before, listed, k);
      OthersMeaning(after, listed, k);
      MeaningAt(before, k);
      MeaningAt(after, k);
      MeaningAt(extras, k);
    }
  }

  // After a write, reading gives the written settings, normalised, with the unknown keys
  // the document had and the settings did not mention. The order of unknown keys and of
  // nested fields does not count.
  lemma PutGet(root: Node, config: Config, show: Json -> string)
    requires TextKeyed(root) && Untwinned(RootPairs(root), config) && Typed(config)
    ensures var got := GetConfig(SetConfig(root, config), show);
            && got.known == NormalKnown(config.known)
            && SameSub(got.geoxUrl, NormalSub(config.geoxUrl, GEOX_URL_KEY_ORDER))
            && SameSub(got.profile, NormalSub(config.profile, PROFILE_NESTED_KEY_ORDER))
            && FieldsMeaning(ExtrasOf(got.extras)) ==
               FieldsMeaning(ExtrasOf(GetConfig(root, show).extras)) + FieldsMeaning(ExtrasOf(config.extras))
  {
    hide PROFILE_KEY_ORDER, SECTION_KEYS, GEOX_URL_KEY_ORDER, PROFILE_NESTED_KEY_ORDER, RootFields, SetConfig, TextKeyed, Untwinned,
         Typed, KnownFields, AtKey, NormalKnown, NormalSub, SameSub, FieldsMeaning, Others;
    PutGetKnown(root, config, show);
    PutGetGeoxUrl(root, config);
    PutGetProfile(root, config);
    PutGetExtras(root, config);
    var listed := PROFILE_KEY_ORDER + SECTION_KEYS;
    NonEmptyExtras(Others(RootFields(root), listed));
    NonEmptyExtras(Others(RootFields(SetConfig(root, config)), listed));
  }

  // ----- writing back what was read -----

  // The value at a known key is one that reading and writing carry over.
  predicate Carried(key: string, j: Json) {
    if key == "geox-url" then
      j.JObj? && j.fields != [] && forall k | k in GEOX_URL_KEY_ORDER && FieldAt(j.fields, k).Some? :: IsString(FieldAt(j.fields, k).value)
    else if key == "profile" then
      j.JObj? && j.fields != [] && forall k | k in PROFILE_NESTED_KEY_ORDER && FieldAt(j.fields, k).Some? :: IsBool(FieldAt(j.fields, k).value)
    else if key == "authentication" then
      j.JArr? && j.items != [] && forall i | 0 <= i < |j.items| :: IsString(j.items[i])
    else HasType(key, j)
  }

  // Every known key that is present holds a value of its type.
  ghost predicate WellTyped(root: Node) {
    forall k :: k in PROFILE_KEY_ORDER && FieldAt(RootFields(root), k).Some? ==> Carried(k, FieldAt(RootFields(root), k).value)
  }

  ghost predicate NaNFreeDoc(root: Node) {
    NaNFreeFields(ToFields(RootPairs(root)))
  }

  // What is read of a sub-section and built again, key by key.
  lemma RebuiltAt(fields: seq<Field>, order: seq<string>, hasType: Json -> bool, k: string)
    requires KeyedFields(fields)
    ensures var sub := Sub(KnownSub(fields, order, hasType), NonEmpty(Others(fields, order)));
            && FieldAt(BuildSub(order, sub), k) ==
               (if FieldAt(fields, k).Some? && (k in order ==> hasType(FieldAt(fields, k).value)) then FieldAt(fields, k) else None)
            && DistinctFields(BuildSub(order, sub))
  {
    hide FieldAt, BuildSub, Others, KeyedFields;
    var sub := Sub(KnownSub(fields, order, hasType), NonEmpty(Others(fields, order)));
    NonEmptyExtras(Others(fields, order));
    KeyedDistinct(fields);
    OthersDistinct(fields, order);
    OthersAt(fields, order, k);
    BuildSubAt(order, sub, k);
  }

  // A sub-section means the same after it is read and built again exactly when its
  // known fields have their types.
  lemma RebuiltIff(fields: seq<Field>, order: seq<string>, hasType: Json -> bool)
    requires KeyedFields(fields)
    ensures var built := BuildSub(order, Sub(KnownSub(fields, order, hasType), NonEmpty(Others(fields, order))));
            FieldsMeaning(built) == FieldsMeaning(fields)
            <==> forall k | k in order && FieldAt(fields, k).Some? :: hasType(FieldAt(fields, k).value)
  {
    hide FieldAt, BuildSub, Others, KeyedFields, FieldsMeaning, Meaning, KnownSub;
    var built := BuildSub(order, Sub(KnownSub(fields, order, hasType), NonEmpty(Others(fields, order))));
    forall k
      ensures k in FieldsMeaning(built) <==> FieldAt(fields, k).Some? && (k in order ==> hasType(FieldAt(fields, k).value))
      ensures k in FieldsMeaning(fields) <==> FieldAt(fields, k).Some?
      ensures k in FieldsMeaning(built) ==> FieldsMeaning(built)[k] == FieldsMeaning(fields)[k]
    {
      RebuiltAt(fields, order, hasType, k);
      MeaningAt(built, k);
      MeaningAt(fields, k);
    }
    if FieldsMeaning(built) == FieldsMeaning(fields) {
      forall k | k in order && FieldAt(fields, k).Some?
        ensures hasType(FieldAt(fields, k).value)
      {
        assert k in FieldsMeaning(built);
      }
    }
  }

  lemma RebuiltKeyed(fields: seq<Field>, order: seq<string>, hasType: Json -> bool)
    requires KeyedFields(fields)
    ensures var built := BuildSub(order, Sub(KnownSub(fields, order, hasType), NonEmpty(Others(fields, order))));
            KeyedFields(built)
    ensures var built := BuildSub(order, Sub(KnownSub(fields, order, hasType), NonEmpty(Others(fields, order))));
            (forall k | k in order && FieldAt(fields, k).Some? :: hasType(FieldAt(fields, k).value)) ==>
              (NaNFreeFields(built) <==> NaNFreeFields(fields))
  {
    hide FieldAt, BuildSub, Others, KeyedFields, NaNFreeFields, KnownSub, Keyed, NaNFree;
    var built := BuildSub(order, Sub(KnownSub(fields, order, hasType), NonEmpty(Others(fields, order))));
    RebuiltAt(fields, order, hasType, "");
    forall k | FieldAt(built, k).Some?
      ensures Keyed(FieldAt(built, k).value)
    {
      RebuiltAt(fields, order, hasType, k);
      FieldKeyed(fields, k);
    }
    KeyedFromAt(built);
    if forall k | k in order && FieldAt(fields, k).Some? :: hasType(FieldAt(fields, k).value) {
      forall k
        ensures FieldAt(built, k) == FieldAt(fields, k)
      {
        RebuiltAt(fields, order, hasType, k);
      }
      KeyedDistinct(fields);
      SameNaNFree(built, fields);
      SameNaNFree(fields, built);
    }
  }

  lemma SameNaNFree(a: seq<Field>, b: seq<Field>)
    requires DistinctFields(b) && forall k :: FieldAt(a, k) == FieldAt(b, k)
    ensures NaNFreeFields(a) ==> NaNFreeFields(b)
  {
    hide FieldAt, NaNFree, NaNFreeFields;
    if NaNFreeFields(a) {
      forall k | FieldAt(b, k).Some?
        ensures NaNFree(FieldAt(b, k).value)
      {
        assert FieldAt(a, k).Some?;
        NaNFreeAt(a, k);
      }
      NaNFreeFromAt(b);
    }
  }

  // What reading a value at a known key and writing it again amounts to.
  function Rewritten(key: string, j: Json, show: Json -> string): Option<Json> {
    if key == "geox-url" then
      match ProjectGeoxUrl(j)
      case Some(sub) => if BuildSub(GEOX_URL_KEY_ORDER, sub) != [] then Some(JObj(BuildSub(GEOX_URL_KEY_ORDER, sub))) else None
      case None => None
    else if key == "profile" then
      match ProjectProfileNested(j)
      case Some(sub) => if BuildSub(PROFILE_NESTED_KEY_ORDER, sub) != [] then Some(JObj(BuildSub(PROFILE_NESTED_KEY_ORDER, sub))) else None
      case None => None
    else
      match Projected(key, j, show)
      case Some(v) => if key == "authentication" && v == JArr([]) then None else Some(v)
      case None => None
  }

  lemma AuthenticationIsList(j: Json, show: Json -> string)
    ensures var p := Projected("authentication", j, show); p.Some? ==> p.value.JArr?
  {
  }

  lemma ManagedRewritten(root: Node, show: Json -> string, k: string)
    requires k in PROFILE_KEY_ORDER
    ensures ManagedAt(GetConfig(root, show), k) ==
            match FieldAt(RootFields(root), k) case Some(j) => Rewritten(k, j, show) case None => None
  {
    hide PROFILE_KEY_ORDER, SECTION_KEYS, GEOX_URL_KEY_ORDER, PROFILE_NESTED_KEY_ORDER, FieldAt, RootFields, BuildSub,
         Projected, ProjectGeoxUrl, ProjectProfileNested, Others;
    var j := FieldAt(RootFields(root), k);
    if j.Some? && k == "authentication" {
      AuthenticationIsList(j.value, show);
    }
  }

  lemma ReadExtrasAt(root: Node, show: Json -> string, k: string)
    ensures FieldAt(ExtrasOf(GetConfig(root, show).extras), k) ==
            if k in PROFILE_KEY_ORDER + SECTION_KEYS then None else FieldAt(RootFields(root), k)
  {
    hide PROFILE_KEY_ORDER, SECTION_KEYS, FieldAt, RootFields, Others, KnownFields, AtKey;
    var listed := PROFILE_KEY_ORDER + SECTION_KEYS;
    NonEmptyExtras(Others(RootFields(root), listed));
    OthersAt(RootFields(root), listed, k);
  }

  // A rewritten value means the old one exactly when the old one is carried over.
  lemma RewrittenIff(key: string, j: Json, show: Json -> string)
    requires Keyed(j)
    ensures var r := Rewritten(key, j, show);
            && (Carried(key, j) <==> r.Some? && Meaning(r.value) == Meaning(j))
            && (r.Some? ==> Keyed(r.value))
            && (Carried(key, j) ==> (NaNFree(r.value) <==> NaNFree(j)))
  {
    if key == "geox-url" {
      RewrittenGeoxUrl(j, show);
    } else if key == "profile" {
      RewrittenProfile(j, show);
    } else if key == "authentication" {
      RewrittenList(j, show);
    } else {
      hide Meaning, Keyed, NaNFree;
    }
  }

  lemma RewrittenGeoxUrl(j: Json, show: Json -> string)
    requires Keyed(j)
    ensures var r := Rewritten("geox-url", j, show);
            && (Carried("geox-url", j) <==> r.Some? && Meaning(r.value) == Meaning(j))
            && (r.Some? ==> Keyed(r.value))
            && (Carried("geox-url", j) ==> (NaNFree(r.value) <==> NaNFree(j)))
  {
    if j.JObj? {
      hide GEOX_URL_KEY_ORDER, FieldAt, BuildSub, Others, KnownSub, FieldsMeaning, KeyedFields, NaNFreeFields;
      var fields := j.fields;
      var sub := Sub(KnownSub(fields, GEOX_URL_KEY_ORDER, IsString), NonEmpty(Others(fields, GEOX_URL_KEY_ORDER)));
      RebuiltIff(fields, GEOX_URL_KEY_ORDER, IsString);
      RebuiltKeyed(fields, GEOX_URL_KEY_ORDER, IsString);
      NoFieldsIff(fields);
      NoFieldsIff(BuildSub(GEOX_URL_KEY_ORDER, sub));
      NonEmptyExtras(Others(fields, GEOX_URL_KEY_ORDER));
      SubReadTyped(fields, GEOX_URL_KEY_ORDER, IsString);
      SubNotEmpty(sub, GEOX_URL_KEY_ORDER, IsString);
    }
  }

  // Known string and boolean fields are scalars.
  lemma SubReadTyped(fields: seq<Field>, order: seq<string>, hasType: Json -> bool)
    requires KeyedFields(fields) && forall j :: hasType(j) ==> j.JScalar?
    ensures TypedSub(Sub(KnownSub(fields, order, hasType), NonEmpty(Others(fields, order))), order, hasType)
  {
    hide FieldAt, Others, KeyedFields, Keyed;
    NonEmptyExtras(Others(fields, order));
    KeyedDistinct(fields);
    OthersDistinct(fields, order);
    forall k
      ensures FieldAt(Others(fields, order), k).Some? ==> k !in order && Keyed(FieldAt(Others(fields, order), k).value)
    {
      OthersAt(fields, order, k);
      if FieldAt(Others(fields, order), k).Some? {
        FieldKeyed(fields, k);
      }
    }
    KeyedFromAt(Others(fields, order));
  }

  lemma RewrittenProfile(j: Json, show: Json -> string)
    requires Keyed(j)
    ensures var r := Rewritten("profile", j, show);
            && (Carried("profile", j) <==> r.Some? && Meaning(r.value) == Meaning(j))
            && (r.Some? ==> Keyed(r.value))
            && (Carried("profile", j) ==> (NaNFree(r.value) <==> NaNFree(j)))
  {
    if j.JObj? {
      hide PROFILE_NESTED_KEY_ORDER, FieldAt, BuildSub, Others, KnownSub, FieldsMeaning, KeyedFields, NaNFreeFields;
      var fields := j.fields;
      var sub := Sub(KnownSub(fields, PROFILE_NESTED_KEY_ORDER, IsBool), NonEmpty(Others(fields, PROFILE_NESTED_KEY_ORDER)));
      RebuiltIff(fields, PROFILE_NESTED_KEY_ORDER, IsBool);
      RebuiltKeyed(fields, PROFILE_NESTED_KEY_ORDER, IsBool);
      NoFieldsIff(fields);
      NoFieldsIff(BuildSub(PROFILE_NESTED_KEY_ORDER, sub));
    }
  }

  lemma {:induction false} TextsMeaning(items: seq<Json>, show: Json -> string)
    ensures ItemsMeaning(Texts(items, show)) == ItemsMeaning(items) <==> forall i :: 0 <= i < |items| ==> IsString(items[i])
  {
    TextsOfStrings(items, show);
    if ItemsMeaning(Texts(items, show)) == ItemsMeaning(items) {
      TextsScalar(items, show);
      FlatItems(items, Texts(items, show));
    }
  }

  lemma {:induction false} TextsScalar(items: seq<Json>, show: Json -> string)
    ensures |Texts(items, show)| == |items|
    ensures forall i :: 0 <= i < |items| ==> IsString(Texts(items, show)[i])
    ensures KeyedItems(Texts(items, show)) && NaNFreeItems(Texts(items, show))
  {
    if items != [] {
      TextsScalar(items[1..], show);
      assert Texts(items, show)[1..] == Texts(items[1..], show);
    }
  }

  lemma RewrittenList(j: Json, show: Json -> string)
    ensures var r := Rewritten("authentication", j, show);
            && (Carried("authentication", j) <==> r.Some? && Meaning(r.value) == Meaning(j))
            && (r.Some? ==> Keyed(r.value))
            && (Carried("authentication", j) ==> (NaNFree(r.value) <==> NaNFree(j)))
  {
    if j.JArr? {
      hide ItemsMeaning, Texts, KeyedItems, NaNFreeItems;
      TextsScalar(j.items, show);
      TextsMeaning(j.items, show);
      TextsOfStrings(j.items, show);
    }
  }

  lemma {:induction false} NothingUpdated(pairs: seq<Pair>, managed: seq<Field>)
    requires forall f :: f in managed ==> Lookup(pairs, f.key).Some? && IsNodeEquivalent(Lookup(pairs, f.key).value, f.value)
    ensures UpdatedAll(pairs, managed) == pairs
    decreases |managed|
  {
    hide Lookup, IsNodeEquivalent, SetKey;
    if managed != [] {
      NothingUpdated(pairs, managed[1..]);
    }
  }

  // The value to write at a key after reading the document, against the one it has.
  lemma ReadValueFor(root: Node, show: Json -> string, k: string)
    ensures ValueFor(GetConfig(root, show), k) ==
            match FieldAt(RootFields(root), k)
            case None => None
            case Some(j) => if k in PROFILE_KEY_ORDER then Rewritten(k, j, show) else if k in SECTION_KEYS then None else Some(j)
  {
    hide PROFILE_KEY_ORDER, SECTION_KEYS, FieldAt, RootFields, Rewritten, GetConfig, ManagedAt;
    ReadExtrasAt(root, show, k);
    if k in PROFILE_KEY_ORDER {
      ManagedRewritten(root, show, k);
    }
  }

  lemma ReadExtrasDistinct(root: Node, show: Json -> string)
    requires TextKeyed(root)
    ensures DistinctFields(ExtrasOf(GetConfig(root, show).extras))
  {
    hide PROFILE_KEY_ORDER, SECTION_KEYS, Others, KeyedFields, KnownFields, AtKey;
    KeyedDistinct(RootFields(root)) by { NoFields(root); }
    OthersDistinct(RootFields(root), PROFILE_KEY_ORDER + SECTION_KEYS);
    NonEmptyExtras(Others(RootFields(root), PROFILE_KEY_ORDER + SECTION_KEYS));
  }

  // What writing back what was read puts at the text of a key.
  function WrittenFor(k: string, j: Json, show: Json -> string): Option<Json> {
    if k in PROFILE_KEY_ORDER then Rewritten(k, j, show) else if k in SECTION_KEYS then None else Some(j)
  }

  // A pair that reading and writing leave alone: a string key with string keys and no NaN
  // below it, and a value of its type if it is known; a section; or a key that is no
  // string and has the text of a known key and no value of its type.
  predicate Kept(p: Pair, show: Json -> string) {
    var k, j := KeyText(p.key), ToJson(p.value);
    if k in PROFILE_KEY_ORDER then
      if p.key.StrKey? then Carried(k, j) && StringKeys(p.value) && NaNFree(j) else Rewritten(k, j, show).None?
    else k in SECTION_KEYS || (p.key.StrKey? && StringKeys(p.value) && NaNFree(j))
  }

  // A write that deletes no pair and sets no node.
  ghost predicate Untouched(pairs: seq<Pair>, config: Config) {
    && (forall k :: k in Removals(pairs, config, Managed(config)) ==> Lookup(pairs, k).None?)
    && (forall f :: f in Managed(config) ==> Lookup(pairs, f.key).Some? && IsNodeEquivalent(Lookup(pairs, f.key).value, f.value))
  }

  // The write leaves the pairs of one key text alone.
  ghost predicate UntouchedAt(pairs: seq<Pair>, config: Config, k: string) {
    && (k in Removals(pairs, config, Managed(config)) ==> Lookup(pairs, k).None?)
    && (ValueFor(config, k).Some? ==> Lookup(pairs, k).Some? && IsNodeEquivalent(Lookup(pairs, k).value, ValueFor(config, k).value))
  }

  // A value is equivalent to what reading and writing make of it exactly when it is kept.
  lemma EquivalentRewritten(n: Node, k: string, show: Json -> string)
    requires Keyed(ToJson(n))
    ensures var w := WrittenFor(k, ToJson(n), show);
            w.Some? && IsNodeEquivalent(n, w.value) <==>
              (k in PROFILE_KEY_ORDER || k !in SECTION_KEYS) && Kept(Pair(StrKey(k), 0, n), show)
  {
    hide PROFILE_KEY_ORDER, SECTION_KEYS, Rewritten, Carried, Meaning, IsNodeEquivalent, ToJson, Keyed, NaNFree, StringKeys;
    if k in PROFILE_KEY_ORDER {
      RewrittenIff(k, ToJson(n), show);
      if Rewritten(k, ToJson(n), show).Some? {
        EquivalentIff(n, Rewritten(k, ToJson(n), show).value);
      }
    } else {
      EquivalentIff(n, ToJson(n));
    }
  }

  lemma {:induction false} RemovalsText(pairs: seq<Pair>, config: Config, managed: seq<Field>, i: nat)
    requires i < |pairs| && IsRemoved(config, managed, KeyText(pairs[i].key))
    ensures KeyText(pairs[i].key) in Removals(pairs, config, managed)
  {
    hide IsRemoved;
    if i > 0 {
      RemovalsText(pairs[1..], config, managed, i - 1);
    }
  }

  // A pair is kept exactly when the write leaves its key text alone.
  lemma KeptIff(root: Node, show: Json -> string, i: nat)
    requires root.YMap? && TextKeyed(root) && i < |root.pairs|
    ensures UntouchedAt(root.pairs, GetConfig(root, show), KeyText(root.pairs[i].key)) <==> Kept(root.pairs[i], show)
    ensures ValueFor(GetConfig(root, show), KeyText(root.pairs[i].key))
            == WrittenFor(KeyText(root.pairs[i].key), ToJson(root.pairs[i].value), show)
  {
    hide PROFILE_KEY_ORDER, SECTION_KEYS, FieldAt, Lookup, Rewritten, GetConfig, Carried, IsNodeEquivalent, ToJson,
         NaNFree, StringKeys, ToFields, ValueFor, Managed, Removals, IsRemoved, DistinctFields, Keyed, KeyedFields;
    var p := root.pairs[i];
    var k, config := KeyText(p.key), GetConfig(root, show);
    PairIsField(root.pairs, i);
    FieldKeyed(ToFields(root.pairs), k);
    ReadValueFor(root, show, k);
    EquivalentRewritten(p.value, k, show);
    KeptFormat(p, show);
    ReadExtrasDistinct(root, show);
    RemovedIff(config, k);
    RemovalsIff(root.pairs, config, Managed(config), k);
    if IsRemoved(config, Managed(config), k) {
      RemovalsText(root.pairs, config, Managed(config), i);
    }
  }

  // A key is removed when it is known and there is nothing to write for it.
  lemma RemovedIff(config: Config, k: string)
    requires DistinctFields(ExtrasOf(config.extras))
    ensures IsRemoved(config, Managed(config), k) <==> k in PROFILE_KEY_ORDER && ValueFor(config, k).None?
  {
    hide PROFILE_KEY_ORDER, ValueFor, Managed, FieldAt;
    ManagedFieldAt(config, k);
    ExtraIsWritten(config, k);
    EmptyKeyUnknown();
  }

  lemma KeptFormat(p: Pair, show: Json -> string)
    ensures p.key.StrKey? ==> Kept(p, show) == Kept(Pair(StrKey(KeyText(p.key)), 0, p.value), show)
  {
  }

  lemma {:induction false} FieldIsPair(pairs: seq<Pair>, k: string) returns (i: nat)
    requires FieldAt(ToFields(pairs), k).Some?
    ensures i < |pairs| && KeyText(pairs[i].key) == k
  {
    hide ToJson;
    assert pairs != [];
    assert ToFields(pairs)[1..] == ToFields(pairs[1..]);
    if KeyText(pairs[0].key) == k {
      i := 0;
    } else {
      i := FieldIsPair(pairs[1..], k);
      i := i + 1;
    }
  }

  lemma {:induction false} RemovedHasPair(pairs: seq<Pair>, config: Config, managed: seq<Field>, k: string) returns (i: nat)
    requires k in Removals(pairs, config, managed)
    ensures i < |pairs| && KeyText(pairs[i].key) == k
  {
    hide IsRemoved;
    if k in Removals(pairs[1..], config, managed) {
      i := RemovedHasPair(pairs[1..], config, managed, k);
      i := i + 1;
    } else {
      i := 0;
    }
  }

  // Writing back what was read deletes no pair and sets no node exactly when every pair
  // is one that is kept. Any mapping keys and any numbers are allowed.
  lemma TouchesNothingIff(root: Node, show: Json -> string)
    requires root.YMap? && TextKeyed(root)
    ensures Untouched(root.pairs, GetConfig(root, show)) <==>
              forall i :: 0 <= i < |root.pairs| ==> Kept(root.pairs[i], show)
  {
    hide PROFILE_KEY_ORDER, SECTION_KEYS, FieldAt, Lookup, GetConfig, Kept, IsNodeEquivalent, RootFields, Managed, Removals,
         ValueFor, WrittenFor, DistinctFields, KeyedFields, ToFields;
    var config := GetConfig(root, show);
    var managed := Managed(config);
    ReadExtrasDistinct(root, show);
    ManagedFieldAt(config, "");
    if Untouched(root.pairs, config) {
      forall i | 0 <= i < |root.pairs|
        ensures Kept(root.pairs[i], show)
      {
        var k := KeyText(root.pairs[i].key);
        KeptIff(root, show, i);
        ManagedFieldAt(config, k);
        if ValueFor(config, k).Some? {
          FieldPresent(managed, k);
        }
      }
    }
    if forall i :: 0 <= i < |root.pairs| ==> Kept(root.pairs[i], show) {
      forall k | k in Removals(root.pairs, config, managed)
        ensures Lookup(root.pairs, k).None?
      {
        var i := RemovedHasPair(root.pairs, config, managed, k);
        KeptIff(root, show, i);
      }
      forall f | f in managed
        ensures Lookup(root.pairs, f.key).Some? && IsNodeEquivalent(Lookup(root.pairs, f.key).value, f.value)
      {
        FieldOf(managed, f);
        ManagedFieldAt(config, f.key);
        ReadPresent(root, show, f.key);
        var i := FieldIsPair(root.pairs, f.key);
        KeptIff(root, show, i);
      }
    }
  }

  lemma {:induction false} FieldPresent(fields: seq<Field>, k: string)
    requires FieldAt(fields, k).Some?
    ensures Field(k, FieldAt(fields, k).value) in fields
  {
    if fields[0].key != k {
      FieldPresent(fields[1..], k);
    }
  }

  // Only what the document has is written back.
  lemma ReadPresent(root: Node, show: Json -> string, k: string)
    requires root.YMap? && ValueFor(GetConfig(root, show), k).Some?
    ensures FieldAt(ToFields(root.pairs), k).Some?
  {
    hide PROFILE_KEY_ORDER, SECTION_KEYS, FieldAt, ValueFor, GetConfig, Rewritten;
    ReadValueFor(root, show, k);
  }

  lemma {:induction false} NoneDeleted(pairs: seq<Pair>, keys: seq<string>)
    requires forall k :: k in keys ==> Lookup(pairs, k).None?
    ensures DeleteKeys(pairs, keys) == pairs
    decreases |keys|
  {
    if keys != [] {
      AbsentDeleted(pairs, keys[0]);
      NoneDeleted(pairs, keys[1..]);
    }
  }

  lemma {:induction false} AbsentDeleted(pairs: seq<Pair>, key: string)
    requires Lookup(pairs, key).None?
    ensures DeleteKey(pairs, key) == pairs
  {
    if pairs != [] {
      AbsentDeleted(pairs[1..], key);
    }
  }

  lemma UntouchedSame(root: Node, config: Config)
    requires root.YMap? && Untouched(root.pairs, config)
    ensures SetConfig(root, config) == root
  {
    hide Lookup, IsNodeEquivalent, Managed, Removals;
    NoneDeleted(root.pairs, Removals(root.pairs, config, Managed(config)));
    NothingUpdated(root.pairs, Managed(config));
  }

  // What a save that changes nothing in the settings does to every single pair. A key that
  // is not a string stays as it is, and its value is written a second time, under the
  // text of the key; a kept pair stays; any other node is replaced by a new one, or
  // removed when it is known and its value has the wrong type.
  lemma SavedPair(root: Node, show: Json -> string, i: nat)
    requires root.YMap? && TextKeyed(root) && i < |root.pairs|
    ensures var p := root.pairs[i];
            var after := SetPairs(root.pairs, GetConfig(root, show));
            var w := WrittenFor(KeyText(p.key), ToJson(p.value), show);
            if p.key.StrKey? && Kept(p, show) then Lookup(after, p.key.s) == Some(p.value)
            else
              && Lookup(after, KeyText(p.key)) == (match w case Some(v) => Some(CreateNode(v)) case None => None)
              && (p.key.OtherKey? ==> p in after)
  {
    var p := root.pairs[i];
    var k, config := KeyText(p.key), GetConfig(root, show);
    TextKeysDistinct(root.pairs);
    ReadExtrasDistinct(root, show);
    SetLookup(root, config, k);
    KeptIff(root, show, i);
    PairIsField(root.pairs, i);
    FieldKeyed(ToFields(root.pairs), k);
    EquivalentRewritten(p.value, k, show);
    if p.key.StrKey? {
      KeptFormat(p, show);
    } else {
      OtherKeyStays(root.pairs, config, p);
    }
    hide PROFILE_KEY_ORDER, SECTION_KEYS, FieldAt, Lookup, Rewritten, GetConfig, Carried, IsNodeEquivalent, ToJson,
         NaNFree, StringKeys, ToFields, ValueFor, Managed, Removals, SetPairs, CreateNode;
  }

  lemma OtherKeyStays(pairs: seq<Pair>, config: Config, p: Pair)
    requires p in pairs && p.key.OtherKey?
    ensures p in SetPairs(pairs, config)
  {
    hide Managed, Removals, DeleteKeys, UpdatedAll;
    OtherKeyUndeleted(pairs, Removals(pairs, config, Managed(config)), p);
    OtherKeyUnset(DeleteKeys(pairs, Removals(pairs, config, Managed(config))), Managed(config), p);
  }

  lemma {:induction false} OtherKeyUndeleted(pairs: seq<Pair>, keys: seq<string>, p: Pair)
    requires p in pairs && p.key.OtherKey?
    ensures p in DeleteKeys(pairs, keys)
    decreases |keys|
  {
    if keys != [] {
      DeleteOther(pairs, keys[0], p);
      OtherKeyUndeleted(DeleteKey(pairs, keys[0]), keys[1..], p);
    }
  }

  lemma {:induction false} DeleteOther(pairs: seq<Pair>, key: string, p: Pair)
    requires p in pairs && p.key.OtherKey?
    ensures p in DeleteKey(pairs, key)
  {
    assert pairs == [pairs[0]] + pairs[1..];
    if pairs[0].key != StrKey(key) && p != pairs[0] {
      DeleteOther(pairs[1..], key, p);
    }
  }

  lemma {:induction false} OtherKeyUnset(pairs: seq<Pair>, managed: seq<Field>, p: Pair)
    requires p in pairs && p.key.OtherKey?
    ensures p in UpdatedAll(pairs, managed)
    decreases |managed|
  {
    hide IsNodeEquivalent, CreateNode;
    if managed != [] {
      SetOther(pairs, managed[0].key, CreateNode(managed[0].value), p);
      OtherKeyUnset(Updated(pairs, managed[0]), managed[1..], p);
    }
  }

  lemma {:induction false} SetOther(pairs: seq<Pair>, key: string, node: Node, p: Pair)
    requires p in pairs && p.key.OtherKey?
    ensures p in SetKey(pairs, key, node)
  {
    assert pairs == [pairs[0]] + pairs[1..];
    if pairs[0].key != StrKey(key) && p != pairs[0] {
      SetOther(pairs[1..], key, node, p);
    }
  }

  // On a document of string keys without NaN, only the types of the known values count.
  lemma GetPutKeeps(root: Node, show: Json -> string)
    requires root.YMap? && DocKeyed(root) && NaNFreeDoc(root) && WellTyped(root)
    ensures SetConfig(root, GetConfig(root, show)) == root
  {
    hide PROFILE_KEY_ORDER, SECTION_KEYS, FieldAt, Lookup, GetConfig, Carried, ToJson, ToFields, NaNFree, StringKeys;
    StringKeyPairsIff(root.pairs);
    forall i | 0 <= i < |root.pairs|
      ensures Kept(root.pairs[i], show)
    {
      PairIsField(root.pairs, i);
      NaNFreeAt(ToFields(root.pairs), KeyText(root.pairs[i].key));
    }
    TouchesNothingIff(root, show);
    UntouchedSame(root, GetConfig(root, show));
  }

  lemma ExtraIsWritten(config: Config, k: string)
    ensures FieldAt(ExtrasOf(config.extras), k).Some? ==> ValueFor(config, k).Some?
  {
  }

  lemma {:induction false} FieldOf(fields: seq<Field>, f: Field)
    requires DistinctFields(fields) && f in fields
    ensures FieldAt(fields, f.key) == Some(f.value)
  {
    if f != fields[0] {
      PresentKey(fields[1..], f);
      FieldOf(fields[1..], f);
    }
  }

  // A document with an ill-typed known key is changed at that key.
  lemma IllTypedChanges(root: Node, show: Json -> string, k: string)
    requires root.YMap? && DocKeyed(root) && NaNFreeDoc(root)
    requires k in PROFILE_KEY_ORDER && FieldAt(RootFields(root), k).Some? && !Carried(k, FieldAt(RootFields(root), k).value)
    ensures SetConfig(root, GetConfig(root, show)) != root
  {
    hide PROFILE_KEY_ORDER, SECTION_KEYS, FieldAt, Lookup, Rewritten, GetConfig, Carried, Meaning, IsNodeEquivalent, ToJson,
         Keyed, KeyedFields, NaNFree, NaNFreeFields, StringKeys, StringKeyPairs, ToFields, ValueFor, SetPairs, CreateNode,
         DistinctFields, DistinctKeys, AllStrings;
    var config := GetConfig(root, show);
    ReadExtrasDistinct(root, show);
    TextKeysDistinct(root.pairs);
    SetLookup(root, config, k);
    ReadValueFor(root, show, k);
    LookupToField(root.pairs, k);
    var n := Lookup(root.pairs, k).value;
    FieldKeyed(ToFields(root.pairs), k);
    NaNFreeAt(ToFields(root.pairs), k);
    RewrittenIff(k, ToJson(n), show);
    var v := Rewritten(k, ToJson(n), show);
    if v.Some? {
      CreatedMeans(v.value);
      EquivalentIff(n, v.value);
    }
  }

  // A pair that a save leaves equal: a kept one, or one whose new node equals the old.
  predicate Equal(p: Pair, show: Json -> string) {
    || Kept(p, show)
    || (p.key.StrKey? && WrittenFor(p.key.s, ToJson(p.value), show).Some? && CreateNode(WrittenFor(p.key.s, ToJson(p.value), show).value) == p.value)
  }

  lemma {:induction false} SetSame(pairs: seq<Pair>, key: string)
    requires Lookup(pairs, key).Some?
    ensures SetKey(pairs, key, Lookup(pairs, key).value) == pairs
  {
    if pairs[0].key != StrKey(key) {
      SetSame(pairs[1..], key);
    }
  }

  lemma {:induction false} UpdatedSame(pairs: seq<Pair>, managed: seq<Field>)
    requires forall f :: f in managed ==>
               Lookup(pairs, f.key).Some? && (IsNodeEquivalent(Lookup(pairs, f.key).value, f.value) || CreateNode(f.value) == Lookup(pairs, f.key).value)
    ensures UpdatedAll(pairs, managed) == pairs
    decreases |managed|
  {
    hide Lookup, IsNodeEquivalent, SetKey, CreateNode;
    if managed != [] {
      SetSame(pairs, managed[0].key);
      UpdatedSame(pairs, managed[1..]);
    }
  }

  lemma EqualPairs(root: Node, show: Json -> string)
    requires root.YMap? && TextKeyed(root)
    requires forall i :: 0 <= i < |root.pairs| ==> Equal(root.pairs[i], show)
    ensures SetConfig(root, GetConfig(root, show)) == root
  {
    hide PROFILE_KEY_ORDER, SECTION_KEYS, FieldAt, Lookup, GetConfig, Kept, IsNodeEquivalent, RootFields, Managed, Removals,
         ValueFor, WrittenFor, DistinctFields, KeyedFields, ToFields, CreateNode, Equal;
    var config := GetConfig(root, show);
    var managed := Managed(config);
    ReadExtrasDistinct(root, show);
    ManagedFieldAt(config, "");
    forall k | k in Removals(root.pairs, config, managed)
      ensures Lookup(root.pairs, k).None?
    {
      var i := RemovedHasPair(root.pairs, config, managed, k);
      KeptIff(root, show, i);
      RemovedIff(config, k);
      RemovalsIff(root.pairs, config, managed, k);
      EqualParts(root.pairs[i], show);
      PairIsField(root.pairs, i);
    }
    NoneDeleted(root.pairs, Removals(root.pairs, config, managed));
    forall f | f in managed
      ensures Lookup(root.pairs, f.key).Some?
      ensures IsNodeEquivalent(Lookup(root.pairs, f.key).value, f.value) || CreateNode(f.value) == Lookup(root.pairs, f.key).value
    {
      FieldOf(managed, f);
      ManagedFieldAt(config, f.key);
      ReadPresent(root, show, f.key);
      var i := FieldIsPair(root.pairs, f.key);
      KeptIff(root, show, i);
      EqualParts(root.pairs[i], show);
      PairIsField(root.pairs, i);
    }
    UpdatedSame(root.pairs, managed);
  }

  lemma EqualParts(p: Pair, show: Json -> string)
    requires Equal(p, show)
    ensures var w := WrittenFor(KeyText(p.key), ToJson(p.value), show);
            !Kept(p, show) ==> p.key.StrKey? && w.Some? && CreateNode(w.value) == p.value
  {
  }

  // Writing back what was read gives the same document exactly when every pair is one
  // that a save leaves equal; any mapping keys and any numbers are allowed. On a document
  // whose keys are strings and which holds no NaN, that is when every known key present
  // holds a value of its type.
  lemma GetPutIff(root: Node, show: Json -> string)
    requires root.YMap? && TextKeyed(root)
    ensures SetConfig(root, GetConfig(root, show)) == root <==> forall i :: 0 <= i < |root.pairs| ==> Equal(root.pairs[i], show)
    ensures DocKeyed(root) && NaNFreeDoc(root) ==> (SetConfig(root, GetConfig(root, show)) == root <==> WellTyped(root))
  {
    hide PROFILE_KEY_ORDER, FieldAt, Lookup, RootFields, GetConfig, Carried, NaNFreeDoc, SetPairs, Kept, WrittenFor, ToFields, KeyedFields, CreateNode;
    if SetConfig(root, GetConfig(root, show)) == root {
      forall i | 0 <= i < |root.pairs|
        ensures Equal(root.pairs[i], show)
      {
        SavedPair(root, show, i);
        PairIsField(root.pairs, i);
        OtherWritten(root.pairs[i], show);
      }
    } else if forall i :: 0 <= i < |root.pairs| ==> Equal(root.pairs[i], show) {
      EqualPairs(root, show);
    }
    if DocKeyed(root) && NaNFreeDoc(root) {
      TypedIff(root, show);
    }
  }

  // A key that is not a string and is not kept has a value to write.
  lemma OtherWritten(p: Pair, show: Json -> string)
    ensures p.key.OtherKey? && !Kept(p, show) ==> WrittenFor(KeyText(p.key), ToJson(p.value), show).Some?
  {
  }

  lemma TypedIff(root: Node, show: Json -> string)
    requires root.YMap? && DocKeyed(root) && NaNFreeDoc(root)
    ensures SetConfig(root, GetConfig(root, show)) == root <==> WellTyped(root)
  {
    hide PROFILE_KEY_ORDER, FieldAt, RootFields, SetConfig, GetConfig, Carried, DocKeyed, NaNFreeDoc;
    if WellTyped(root) {
      GetPutKeeps(root, show);
    } else {
      var k :| k in PROFILE_KEY_ORDER && FieldAt(RootFields(root), k).Some? && !Carried(k, FieldAt(RootFields(root), k).value);
      IllTypedChanges(root, show, k);
    }
  }

  // ----- keys that are not strings -----

  // A numeric top-level key is written a second time, as a string.
  lemma NumericKeyDoubles(value: Scalar, show: Json -> string)
    ensures var p := Pair(OtherKey("1"), 0, YScalar(value, 0));
            var root := YMap([p], 0);
            SetConfig(root, GetConfig(root, show)) == YMap([p, Pair(StrKey("1"), 0, YScalar(value, 0))], 0)
  {
    hide PROFILE_KEY_ORDER, SECTION_KEYS, GetConfig, Managed, CreateNode;
    var p := Pair(OtherKey("1"), 0, YScalar(value, 0));
    var root := YMap([p], 0);
    var f := Field("1", JScalar(value));
    assert [p][1..] == [] && [f][1..] == [];
    NumericKeyRead(value, show);
    NumericKeyManaged(f);
    var config := GetConfig(root, show);
    assert CreateNode(f.value) == YScalar(value, 0) by { CreatedScalar(value); }
    assert Removals([p], config, [f]) == [];
    assert Lookup([p], "1").None?;
    assert SetKey([p], "1", YScalar(value, 0)) == [p] + SetKey([], "1", YScalar(value, 0));
    assert Updated([p], f) == [p] + [Pair(StrKey("1"), 0, YScalar(value, 0))];
    assert UpdatedAll([p], [f]) == UpdatedAll(Updated([p], f), []);
  }

  // A NaN is replaced by a new node, whatever its formatting.
  lemma NaNIsReplaced(format: nat, show: Json -> string)
    ensures var root := YMap([Pair(StrKey("1"), 0, YScalar(Num(NaN), format))], 0);
            Lookup(SetPairs(root.pairs, GetConfig(root, show)), "1") == Some(YScalar(Num(NaN), 0))
  {
    hide PROFILE_KEY_ORDER, SECTION_KEYS, GetConfig, SetPairs, Rewritten, Lookup;
    var root := YMap([Pair(StrKey("1"), 0, YScalar(Num(NaN), format))], 0);
    var f := Field("1", JScalar(Num(NaN)));
    assert root.pairs[1..] == [] && [f][1..] == [];
    assert ToFields(root.pairs) == [f] && KeyedFields([f]);
    OneUnlisted();
    SavedPair(root, show, 0);
    CreatedScalar(Num(NaN));
  }

  // A mapping with a key inside that is not a string is replaced by one with string keys.
  lemma NestedKeyIsReplaced(format: nat, show: Json -> string)
    ensures var inner := YMap([Pair(OtherKey("2"), 0, YScalar(Null, 0))], format);
            var root := YMap([Pair(StrKey("1"), 0, inner)], 0);
            Lookup(SetPairs(root.pairs, GetConfig(root, show)), "1") == Some(YMap([Pair(StrKey("2"), 0, YScalar(Null, 0))], 0))
  {
    hide PROFILE_KEY_ORDER, SECTION_KEYS, GetConfig, SetPairs, Rewritten, Lookup;
    var below := [Pair(OtherKey("2"), 0, YScalar(Null, 0))];
    var inner := YMap(below, format);
    var root := YMap([Pair(StrKey("1"), 0, inner)], 0);
    var f, g := Field("1", JObj([Field("2", JScalar(Null))])), Field("2", JScalar(Null));
    assert root.pairs[1..] == [] && below[1..] == [] && [f][1..] == [] && [g][1..] == [];
    assert ToFields(below) == [g] && KeyedFields([g]);
    assert ToJson(inner) == f.value;
    assert ToFields(root.pairs) == [f] && KeyedFields([f]);
    OneUnlisted();
    assert !StringKeys(inner) by {
      assert !StringKeyPairs(below);
    }
    assert WrittenFor("1", f.value, show) == Some(f.value);
    SavedPair(root, show, 0);
    CreatedScalar(Null);
    assert CreatePairs([]) == [];
    assert CreatePairs([g]) == [Pair(StrKey("2"), 0, YScalar(Null, 0))];
    assert CreateNode(f.value) == YMap(CreatePairs([g]), 0);
  }

  // A known value of the wrong type is removed.
  lemma IllTypedIsRemoved(format: nat, show: Json -> string)
    ensures var root := YMap([Pair(StrKey("mode"), 0, YScalar(Bool(true), format))], 0);
            Lookup(SetPairs(root.pairs, GetConfig(root, show)), "mode") == None
  {
    ModeIsFirst();
    hide PROFILE_KEY_ORDER, SECTION_KEYS, GetConfig, SetPairs, Lookup;
    var root := YMap([Pair(StrKey("mode"), 0, YScalar(Bool(true), format))], 0);
    var f := Field("mode", JScalar(Bool(true)));
    assert root.pairs[1..] == [] && [f][1..] == [];
    assert ToFields(root.pairs) == [f] && KeyedFields([f]);
    assert PROFILE_KEY_ORDER[0] in PROFILE_KEY_ORDER;
    ModeIsTyped(show);
    SavedPair(root, show, 0);
  }

  lemma ModeIsTyped(show: Json -> string)
    ensures Rewritten("mode", JScalar(Bool(true)), show).None? && !Carried("mode", JScalar(Bool(true)))
  {
    assert "mode" != "geox-url" && "mode" != "profile" && "mode" != "authentication";
  }

  lemma CreatedScalar(value: Scalar)
    ensures CreateNode(JScalar(value)) == YScalar(value, 0)
  {
  }

  lemma OneUnlisted()
    ensures "1" !in PROFILE_KEY_ORDER && "1" !in SECTION_KEYS
  {
  }

  lemma NumericKeyRead(value: Scalar, show: Json -> string)
    ensures GetConfig(YMap([Pair(OtherKey("1"), 0, YScalar(value, 0))], 0), show) ==
            Config(map[], None, None, Some([Field("1", JScalar(value))]))
  {
    OneUnlisted();
    KnownKeys();
    hide PROFILE_KEY_ORDER, SECTION_KEYS, Projected;
    var p := Pair(OtherKey("1"), 0, YScalar(value, 0));
    var f := Field("1", JScalar(value));
    assert [p][1..] == [] && [f][1..] == [];
    assert ToFields([p]) == [f];
    assert "1" !in PROFILE_KEY_ORDER + SECTION_KEYS;
    assert Others([f], PROFILE_KEY_ORDER + SECTION_KEYS) == [f];
    forall k | k in PROFILE_KEY_ORDER
      ensures FieldAt([f], k).None?
    {
    }
  }

  lemma NumericKeyManaged(f: Field)
    ensures Managed(Config(map[], None, None, Some([f]))) == [f]
  {
    hide PROFILE_KEY_ORDER;
    var config := Config(map[], None, None, Some([f]));
    assert [f][1..] == [];
    PutManagedNone(config, PROFILE_KEY_ORDER);
    assert SortFields([f]) == [f];
    assert PutFields([], [f]) == PutFields([f], []);
  }

  lemma {:induction false} PutManagedNone(config: Config, order: seq<string>)
    requires config.known == map[] && config.geoxUrl.None? && config.profile.None?
    ensures PutManaged([], config, order) == []
    decreases |order|
  {
    if order != [] {
      PutManagedNone(config, order[1..]);
    }
  }
}
