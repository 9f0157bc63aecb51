// Document nodes and plain values as the web client handles them, and the test that
// leaves an unchanged node alone (apps/web/src/lib/yaml-mutator.ts).
module ProfileTree {
  import opened Outcome

  datatype Number = Finite(r: real) | PosInf | NegInf | NaN

  datatype Scalar = Null | Bool(b: bool) | Num(n: Number) | Str(s: string)

  // A plain value; the fields of an object are in key order of the object.
  datatype Json = JScalar(v: Scalar) | JArr(items: seq<Json>) | JObj(fields: seq<Field>)

  datatype Field = Field(key: string, value: Json)

  // A mapping key is a string, or another scalar of which only the text matters.
  datatype Key = StrKey(s: string) | OtherKey(text: string)

  // A node of the document. The format stands for quoting, comments and layout; a node
  // made from a plain value has format 0.
  datatype Node =
    | YScalar(v: Scalar, format: nat)
    | YMap(pairs: seq<Pair>, format: nat)
    | YSeq(elems: seq<Node>, format: nat)

  datatype Pair = Pair(key: Key, keyFormat: nat, value: Node)

  function KeyText(k: Key): string {
    match k
    case StrKey(s) => s
    case OtherKey(text) => text
  }

  function Lookup(pairs: seq<Pair>, key: string): Option<Node> {
    if pairs == [] then None
    else if pairs[0].key == StrKey(key) then Some(pairs[0].value)
    else Lookup(pairs[1..], key)
  }

  function FieldAt(fields: seq<Field>, key: string): Option<Json> {
    if fields == [] then None
    else if fields[0].key == key then Some(fields[0].value)
    else FieldAt(fields[1..], key)
  }

  // toJSON
  function ToJson(n: Node): Json
    decreases n, 0
  {
    match n
    case YScalar(v, _) => JScalar(v)
    case YMap(pairs, _) => JObj(ToFields(pairs))
    case YSeq(elems, _) => JArr(ToItems(elems))
  }

  function ToFields(pairs: seq<Pair>): (r: seq<Field>)
    ensures |r| == |pairs|
    decreases pairs, 0
  {
    if pairs == [] then []
    else
      var p := pairs[0];
      assert p.value < p;
      [Field(KeyText(p.key), ToJson(p.value))] + ToFields(pairs[1..])
  }

  function ToItems(elems: seq<Node>): (r: seq<Json>)
    ensures |r| == |elems|
    decreases elems, 0
  {
    if elems == [] then [] else [ToJson(elems[0])] + ToItems(elems[1..])
  }

  // createNode
  function CreateNode(j: Json): Node
    decreases j, 0
  {
    match j
    case JScalar(v) => YScalar(v, 0)
    case JObj(fields) => YMap(CreatePairs(fields), 0)
    case JArr(items) => YSeq(CreateElems(items), 0)
  }

  function CreatePairs(fields: seq<Field>): seq<Pair>
    decreases fields, 0
  {
    if fields == [] then [] else [Pair(StrKey(fields[0].key), 0, CreateNode(fields[0].value))] + CreatePairs(fields[1..])
  }

  function CreateElems(items: seq<Json>): seq<Node>
    decreases items, 0
  {
    if items == [] then [] else [CreateNode(items[0])] + CreateElems(items[1..])
  }

  // ----- the test -----

  // === on scalars
  predicate Identical(a: Scalar, b: Scalar) {
    a == b && a != Num(NaN)
  }

  predicate IsNodeEquivalent(n: Node, value: Json)
    decreases value, 0
  {
    match n
    case YScalar(v, _) => value.JScalar? && Identical(v, value.v)
    case YMap(pairs, _) => value.JObj? && |pairs| == |value.fields| && FieldsEquivalent(pairs, value.fields)
    case YSeq(elems, _) => value.JArr? && |elems| == |value.items| && ItemsEquivalent(elems, value.items)
  }

  predicate FieldsEquivalent(pairs: seq<Pair>, fields: seq<Field>)
    decreases fields, 0
  {
    fields != [] ==>
      && Lookup(pairs, fields[0].key).Some?
      && IsNodeEquivalent(Lookup(pairs, fields[0].key).value, fields[0].value)
      && FieldsEquivalent(pairs, fields[1..])
  }

  predicate ItemsEquivalent(elems: seq<Node>, items: seq<Json>)
    requires |elems| == |items|
    decreases items, 0
  {
    items != [] ==> IsNodeEquivalent(elems[0], items[0]) && ItemsEquivalent(elems[1..], items[1..])
  }

  // ----- what a value means -----

  // A value in which the order of the fields of an object does not count.
  datatype Value = VScalar(v: Scalar) | VArr(items: seq<Value>) | VObj(fields: map<string, Value>)

  function Meaning(j: Json): Value
    decreases j, 0
  {
    match j
    case JScalar(v) => VScalar(v)
    case JArr(items) => VArr(ItemsMeaning(items))
    case JObj(fields) => VObj(FieldsMeaning(fields))
  }

  function ItemsMeaning(items: seq<Json>): (r: seq<Value>)
    ensures |r| == |items|
    decreases items, 0
  {
    if items == [] then [] else [Meaning(items[0])] + ItemsMeaning(items[1..])
  }

  function FieldsMeaning(fields: seq<Field>): map<string, Value>
    decreases fields, 0
  {
    if fields == [] then map[] else FieldsMeaning(fields[1..])[fields[0].key := Meaning(fields[0].value)]
  }

  // ----- well-formed values -----

  // Distinct keys at every level.
  predicate Keyed(j: Json)
    decreases j, 0
  {
    match j
    case JScalar(_) => true
    case JArr(items) => KeyedItems(items)
    case JObj(fields) => KeyedFields(fields)
  }

  predicate KeyedItems(items: seq<Json>)
    decreases items, 0
  {
    items != [] ==> Keyed(items[0]) && KeyedItems(items[1..])
  }

  predicate KeyedFields(fields: seq<Field>)
    decreases fields, 0
  {
    fields != [] ==> FieldAt(fields[1..], fields[0].key).None? && Keyed(fields[0].value) && KeyedFields(fields[1..])
  }

  // All mapping keys are strings.
  predicate StringKeys(n: Node)
    decreases n, 0
  {
    match n
    case YScalar(_, _) => true
    case YMap(pairs, _) => StringKeyPairs(pairs)
    case YSeq(elems, _) => StringKeyElems(elems)
  }

  predicate StringKeyPairs(pairs: seq<Pair>)
    decreases pairs, 0
  {
    pairs != [] ==>
      var p := pairs[0];
      assert p.value < p;
      p.key.StrKey? && StringKeys(p.value) && StringKeyPairs(pairs[1..])
  }

  predicate StringKeyElems(elems: seq<Node>)
    decreases elems, 0
  {
    elems != [] ==> StringKeys(elems[0]) && StringKeyElems(elems[1..])
  }

  predicate NaNFree(j: Json)
    decreases j, 0
  {
    match j
    case JScalar(v) => v != Num(NaN)
    case JArr(items) => NaNFreeItems(items)
    case JObj(fields) => NaNFreeFields(fields)
  }

  predicate NaNFreeItems(items: seq<Json>)
    decreases items, 0
  {
    items != [] ==> NaNFree(items[0]) && NaNFreeItems(items[1..])
  }

  predicate NaNFreeFields(fields: seq<Field>)
    decreases fields, 0
  {
    fields != [] ==> NaNFree(fields[0].value) && NaNFreeFields(fields[1..])
  }

  // ----- lookups -----

  lemma {:induction false} MeaningAt(fields: seq<Field>, key: string)
    ensures key in FieldsMeaning(fields) <==> FieldAt(fields, key).Some?
    ensures key in FieldsMeaning(fields) ==> FieldsMeaning(fields)[key] == Meaning(FieldAt(fields, key).value)
  {
    hide Meaning;
    if fields != [] {
      MeaningAt(fields[1..], key);
    }
  }

  lemma {:induction false} MeaningSize(fields: seq<Field>)
    requires KeyedFields(fields)
    ensures |FieldsMeaning(fields).Keys| == |fields|
  {
    hide Meaning, Keyed;
    if fields != [] {
      MeaningSize(fields[1..]);
      MeaningAt(fields[1..], fields[0].key);
      assert FieldsMeaning(fields).Keys == FieldsMeaning(fields[1..]).Keys + {fields[0].key};
    }
  }

  lemma {:induction false} LookupToField(pairs: seq<Pair>, key: string)
    requires StringKeyPairs(pairs)
    ensures FieldAt(ToFields(pairs), key).Some? <==> Lookup(pairs, key).Some?
    ensures Lookup(pairs, key).Some? ==> FieldAt(ToFields(pairs), key).value == ToJson(Lookup(pairs, key).value)
    ensures Lookup(pairs, key).Some? ==> StringKeys(Lookup(pairs, key).value)
  {
    hide ToJson, StringKeys;
    if pairs != [] {
      LookupToField(pairs[1..], key);
      assert ToFields(pairs)[1..] == ToFields(pairs[1..]);
    }
  }

  lemma {:induction false} FieldKeyed(fields: seq<Field>, key: string)
    requires KeyedFields(fields) && FieldAt(fields, key).Some?
    ensures Keyed(FieldAt(fields, key).value)
  {
    hide Keyed;
    if fields[0].key != key {
      FieldKeyed(fields[1..], key);
    }
  }

  // ----- the test is sound and complete -----

  // The node is left alone exactly when its mapping keys are strings, it means the value,
  // and the value holds no NaN (which no comparison finds equal).
  lemma {:induction false} EquivalentIff(n: Node, value: Json)
    requires Keyed(ToJson(n)) && Keyed(value)
    ensures IsNodeEquivalent(n, value) <==> StringKeys(n) && Meaning(ToJson(n)) == Meaning(value) && NaNFree(value)
    decreases value, 0
  {
    match n
    case YScalar(v, _) =>
    case YMap(pairs, _) =>
      if value.JObj? {
        FieldsEquivalentIff(pairs, value.fields);
        MapsEqualIff(pairs, value.fields);
        if |pairs| == |value.fields| {
          FoundIff(pairs, value.fields);
        }
      }
    case YSeq(elems, _) =>
      if value.JArr? && |elems| == |value.items| {
        ItemsEquivalentIff(elems, value.items);
      }
  }

  lemma {:induction false} ItemsEquivalentIff(elems: seq<Node>, items: seq<Json>)
    requires |elems| == |items| && KeyedItems(ToItems(elems)) && KeyedItems(items)
    ensures ItemsEquivalent(elems, items) <==>
              StringKeyElems(elems) && ItemsMeaning(ToItems(elems)) == ItemsMeaning(items) && NaNFreeItems(items)
    decreases items, 0
  {
    if items != [] {
      assert ToItems(elems)[1..] == ToItems(elems[1..]);
      EquivalentIff(elems[0], items[0]);
      ItemsEquivalentIff(elems[1..], items[1..]);
      hide IsNodeEquivalent, Meaning, ToJson, Keyed, StringKeys, NaNFree;
      var a, b := ItemsMeaning(ToItems(elems)), ItemsMeaning(items);
      assert a[1..] == ItemsMeaning(ToItems(elems[1..])) && b[1..] == ItemsMeaning(items[1..]);
      assert a == [a[0]] + a[1..] && b == [b[0]] + b[1..];
    }
  }

  // The fields are met by the pairs.
  ghost predicate Covered(pairs: seq<Pair>, fields: seq<Field>) {
    fields != [] ==>
      && FieldAt(ToFields(pairs), fields[0].key).Some?
      && Meaning(FieldAt(ToFields(pairs), fields[0].key).value) == Meaning(fields[0].value)
      && Covered(pairs, fields[1..])
  }

  // The fields are found among the string keys, with equal meaning.
  ghost predicate Found(pairs: seq<Pair>, fields: seq<Field>) {
    fields != [] ==>
      && Lookup(pairs, fields[0].key).Some?
      && StringKeys(Lookup(pairs, fields[0].key).value)
      && Meaning(ToJson(Lookup(pairs, fields[0].key).value)) == Meaning(fields[0].value)
      && Found(pairs, fields[1..])
  }

  lemma {:induction false} FieldsEquivalentIff(pairs: seq<Pair>, fields: seq<Field>)
    requires KeyedFields(ToFields(pairs)) && KeyedFields(fields)
    ensures FieldsEquivalent(pairs, fields) <==> Found(pairs, fields) && NaNFreeFields(fields)
    decreases fields, 0
  {
    if fields != [] {
      var key := fields[0].key;
      if Lookup(pairs, key).Some? {
        LookupIsField(pairs, key);
        FieldKeyed(ToFields(pairs), key);
        EquivalentIff(Lookup(pairs, key).value, fields[0].value);
      }
      FieldsEquivalentIff(pairs, fields[1..]);
      hide IsNodeEquivalent, Meaning, ToJson, Keyed, StringKeys, NaNFree, Lookup, FieldAt;
    }
  }

  // With distinct key texts, a string key is found as a field.
  lemma {:induction false} LookupIsField(pairs: seq<Pair>, key: string)
    requires KeyedFields(ToFields(pairs)) && Lookup(pairs, key).Some?
    ensures FieldAt(ToFields(pairs), key) == Some(ToJson(Lookup(pairs, key).value))
  {
    hide ToJson, Keyed;
    assert ToFields(pairs)[1..] == ToFields(pairs[1..]);
    if pairs[0].key != StrKey(key) {
      LookupIsField(pairs[1..], key);
    }
  }

  // A pair is the field of its key text, and found there if the key is a string.
  lemma {:induction false} PairIsField(pairs: seq<Pair>, i: nat)
    requires KeyedFields(ToFields(pairs)) && i < |pairs|
    ensures FieldAt(ToFields(pairs), KeyText(pairs[i].key)) == Some(ToJson(pairs[i].value))
    ensures Lookup(pairs, KeyText(pairs[i].key)) == if pairs[i].key.StrKey? then Some(pairs[i].value) else None
  {
    hide ToJson, Keyed;
    assert ToFields(pairs)[1..] == ToFields(pairs[1..]);
    if i > 0 {
      PairIsField(pairs[1..], i - 1);
    } else if pairs[0].key.OtherKey? && Lookup(pairs[1..], pairs[0].key.text).Some? {
      LookupIsField(pairs[1..], pairs[0].key.text);
    }
  }

  lemma {:induction false} StringKeyPairsIff(pairs: seq<Pair>)
    ensures StringKeyPairs(pairs) <==> forall i :: 0 <= i < |pairs| ==> pairs[i].key.StrKey? && StringKeys(pairs[i].value)
  {
    hide StringKeys;
    if pairs != [] {
      StringKeyPairsIff(pairs[1..]);
      assert forall i :: 0 <= i < |pairs| - 1 ==> pairs[1..][i] == pairs[i + 1];
      if forall i :: 0 <= i < |pairs[1..]| ==> pairs[1..][i].key.StrKey? && StringKeys(pairs[1..][i].value) {
        assert forall i :: 1 <= i < |pairs| ==> pairs[i] == pairs[1..][i - 1];
      }
    }
  }

  lemma {:induction false} FoundAt(pairs: seq<Pair>, fields: seq<Field>, key: string)
    requires Found(pairs, fields) && FieldAt(fields, key).Some?
    ensures Lookup(pairs, key).Some? && StringKeys(Lookup(pairs, key).value)
    decreases fields
  {
    hide Meaning, ToJson, StringKeys, Lookup;
    if fields[0].key != key {
      FoundAt(pairs, fields[1..], key);
    }
  }

  lemma {:induction false} FoundCovers(pairs: seq<Pair>, fields: seq<Field>)
    requires KeyedFields(ToFields(pairs))
    ensures Found(pairs, fields) ==> Covered(pairs, fields)
    ensures StringKeyPairs(pairs) && Covered(pairs, fields) ==> Found(pairs, fields)
    decreases fields
  {
    hide Meaning, ToJson, Keyed, StringKeys, Lookup, FieldAt, KeyedFields, StringKeyPairs;
    if fields != [] {
      if Lookup(pairs, fields[0].key).Some? {
        LookupIsField(pairs, fields[0].key);
      }
      if StringKeyPairs(pairs) {
        LookupToField(pairs, fields[0].key);
      }
      FoundCovers(pairs, fields[1..]);
    }
  }

  // As many pairs as fields: all fields are found exactly when they are covered and all
  // keys are strings.
  lemma FoundIff(pairs: seq<Pair>, fields: seq<Field>)
    requires KeyedFields(ToFields(pairs)) && KeyedFields(fields) && |pairs| == |fields|
    ensures Found(pairs, fields) <==> StringKeyPairs(pairs) && Covered(pairs, fields)
  {
    hide Meaning, ToJson, Keyed, StringKeys, Lookup, FieldAt, KeyedFields, StringKeyPairs, Found, Covered, FieldsMeaning;
    FoundCovers(pairs, fields);
    if Found(pairs, fields) {
      MapsEqualIff(pairs, fields);
      StringKeyPairsIff(pairs);
      forall i | 0 <= i < |pairs|
        ensures pairs[i].key.StrKey? && StringKeys(pairs[i].value)
      {
        var key := KeyText(pairs[i].key);
        PairIsField(pairs, i);
        MeaningAt(ToFields(pairs), key);
        MeaningAt(fields, key);
        FoundAt(pairs, fields, key);
      }
    }
  }

  lemma {:induction false} CoveredAt(pairs: seq<Pair>, fields: seq<Field>, key: string)
    requires Covered(pairs, fields) && FieldAt(fields, key).Some?
    ensures FieldAt(ToFields(pairs), key).Some?
    ensures Meaning(FieldAt(ToFields(pairs), key).value) == Meaning(FieldAt(fields, key).value)
    decreases fields
  {
    hide Meaning, ToFields;
    if fields[0].key != key {
      CoveredAt(pairs, fields[1..], key);
    }
  }

  lemma {:induction false} EqualCovers(pairs: seq<Pair>, fields: seq<Field>)
    requires forall k :: k in FieldsMeaning(fields) ==> k in FieldsMeaning(ToFields(pairs)) && FieldsMeaning(ToFields(pairs))[k] == FieldsMeaning(fields)[k]
    requires KeyedFields(fields)
    ensures Covered(pairs, fields)
    decreases fields
  {
    if fields != [] {
      var key := fields[0].key;
      MeaningAt(ToFields(pairs), key);
      MeaningAt(fields, key);
      MeaningAt(fields[1..], key);
      hide Meaning, Keyed, ToFields;
      EqualCovers(pairs, fields[1..]);
    }
  }

  lemma MapsEqualIff(pairs: seq<Pair>, fields: seq<Field>)
    requires KeyedFields(ToFields(pairs)) && KeyedFields(fields)
    ensures FieldsMeaning(ToFields(pairs)) == FieldsMeaning(fields) <==> |pairs| == |fields| && Covered(pairs, fields)
  {
    hide Meaning, Keyed, ToFields, FieldAt, Covered, FieldsMeaning, KeyedFields;
    var a, b := FieldsMeaning(ToFields(pairs)), FieldsMeaning(fields);
    MeaningSize(ToFields(pairs));
    MeaningSize(fields);
    if a == b {
      EqualCovers(pairs, fields);
    } else if |pairs| == |fields| && Covered(pairs, fields) {
      forall k | k in b
        ensures k in a && a[k] == b[k]
      {
        MeaningAt(fields, k);
        CoveredAt(pairs, fields, k);
        MeaningAt(ToFields(pairs), k);
      }
      SameSize(b.Keys, a.Keys);
      assert false;
    }
  }

  lemma SameSize(a: set<string>, b: set<string>)
    requires a <= b && |a| == |b|
    ensures a == b
  {
    var rest := b - a;
    assert b == a + rest;
  }

  // ----- created nodes -----

  lemma {:induction false} CreatedMeans(j: Json)
    ensures ToJson(CreateNode(j)) == j && StringKeys(CreateNode(j))
    decreases j, 0
  {
    match j
    case JScalar(_) =>
    case JObj(fields) => CreatedPairs(fields);
    case JArr(items) => CreatedElems(items);
  }

  lemma {:induction false} CreatedPairs(fields: seq<Field>)
    ensures ToFields(CreatePairs(fields)) == fields && StringKeyPairs(CreatePairs(fields))
    decreases fields, 0
  {
    if fields != [] {
      CreatedMeans(fields[0].value);
      CreatedPairs(fields[1..]);
      hide ToJson, CreateNode, StringKeys;
      assert CreatePairs(fields)[1..] == CreatePairs(fields[1..]);
      assert fields == [fields[0]] + fields[1..];
    }
  }

  lemma {:induction false} CreatedElems(items: seq<Json>)
    ensures ToItems(CreateElems(items)) == items && StringKeyElems(CreateElems(items))
    decreases items, 0
  {
    if items != [] {
      CreatedMeans(items[0]);
      CreatedElems(items[1..]);
      hide ToJson, CreateNode, StringKeys;
      assert CreateElems(items)[1..] == CreateElems(items[1..]);
      assert items == [items[0]] + items[1..];
    }
  }
}
