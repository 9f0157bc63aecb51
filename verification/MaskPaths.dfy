// What masking and unmasking do to each scalar of a document, found by the path to it,
// and which keys are confidential.
module MaskPaths {
  import opened Outcome
  import opened Text
  import opened Yaml
  import opened Mask
  import opened MaskLaws
  import opened MaskEdit
  import opened VaultStore
  import opened VaultFacts
  import opened Snapshots

  // ----- keys -----

  ghost predicate EndsIn(key: string, suffix: string) {
    exists p :: key == p + suffix
  }

  // A listed name or one of the four endings, but never the public key.
  ghost predicate Confidential(key: string, fields: set<string>) {
    && key != "public-key"
    && (key in fields || EndsIn(key, "-key") || EndsIn(key, "-password") || EndsIn(key, "-token") || EndsIn(key, "-secret"))
  }

  lemma EndsIff(key: string, suffix: string)
    ensures EndsWith(key, suffix) <==> EndsIn(key, suffix)
  {
    if EndsWith(key, suffix) {
      assert key == key[..|key| - |suffix|] + suffix;
    }
    if p :| key == p + suffix {
      assert key[|key| - |suffix|..] == suffix;
    }
  }

  // A key is masked exactly when it is confidential.
  lemma SecretKeyIff(key: string, fields: set<string>)
    ensures IsSecretKey(key, fields) <==> Confidential(key, fields)
  {
    hide EndsWith, EndsIn;
    EndsIff(key, "-key");
    EndsIff(key, "-password");
    EndsIff(key, "-token");
    EndsIff(key, "-secret");
  }

  // Whatever stands before one of the endings, except for the public key.
  lemma EndingsAreSecret(p: string, fields: set<string>)
    ensures IsSecretKey(p + "-password", fields) && IsSecretKey(p + "-token", fields) && IsSecretKey(p + "-secret", fields)
    ensures IsSecretKey(p + "-key", fields) <==> p != "public"
  {
    hide IsSecretKey;
    LastLetter(p, "-password");
    LastLetter(p, "-token");
    LastLetter(p, "-secret");
    assert "public-key"[9] == 'y' && "-password"[8] == 'd' && "-token"[5] == 'n' && "-secret"[6] == 't';
    SecretKeyIff(p + "-password", fields);
    SecretKeyIff(p + "-token", fields);
    SecretKeyIff(p + "-secret", fields);
    SecretKeyIff(p + "-key", fields);
    assert "public-key" == "public" + "-key";
    if p + "-key" == "public-key" {
      assert p == (p + "-key")[..6] == "public-key"[..6];
    }
  }

  lemma LastLetter(p: string, suffix: string)
    requires suffix != ""
    ensures (p + suffix)[|p + suffix| - 1] == suffix[|suffix| - 1]
  {
  }

  // ----- masking by path -----

  // The scalar at the path is taken out: it stands under a confidential scalar key, is
  // not null and does not start with the sentinel prefix.
  ghost predicate TakenAt(n: Node, path: seq<Step>, fields: set<string>) {
    && path != [] && path[|path| - 1].ValueAt?
    && var i, parent := path[|path| - 1].i, At(n, path[..|path| - 1]);
       parent.Some? && parent.value.Map? && i < |parent.value.pairs| && Taken(parent.value.pairs[i], fields)
  }

  ghost predicate Taken(pair: Pair, fields: set<string>) {
    && pair.key.Leaf? && Confidential(KeyText(pair.key.value), fields)
    && pair.value.Leaf? && pair.value.value != Null && !(SENTINEL_PREFIX <= KeyText(pair.value.value))
  }

  lemma TakenIff(pair: Pair, fields: set<string>)
    ensures SecretOf(pair, fields).Some? <==> Taken(pair, fields)
    ensures SecretOf(pair, fields).Some? ==> SecretOf(pair, fields).value == KeyText(pair.value.value)
  {
    if pair.key.Leaf? {
      SecretKeyIff(KeyText(pair.key.value), fields);
    }
    hide IsSecretKey, Confidential;
  }

  lemma {:induction false} TakenAtIff(n: Node, path: seq<Step>, fields: set<string>)
    ensures SecretAt(n, path, fields) <==> TakenAt(n, path, fields)
    decreases |path|
  {
    hide SecretOf, Taken;
    if |path| == 1 {
      assert path[..0] == [];
      if n.Map? && path[0].ValueAt? && path[0].i < |n.pairs| {
        TakenIff(n.pairs[path[0].i], fields);
      }
    } else if |path| > 1 {
      var front := path[..|path| - 1];
      assert front[0] == path[0] && front[1..] == path[1..][..|path| - 2];
      if Child(n, path[0]).Some? {
        TakenAtIff(Child(n, path[0]).value, path[1..], fields);
      }
    }
  }

  // What masking makes of a node: a sentinel of its text, or the same scalar, or a
  // collection of the same size.
  ghost predicate MaskedInto(x: Node, y: Node, taken: bool, values: Values) {
    if taken then x.Leaf? && Refers(y, KeyText(x.value), values)
    else
      match x
      case Leaf(_) => y == x
      case Map(pairs) => y.Map? && |y.pairs| == |pairs|
      case Seq(items) => y.Seq? && |y.items| == |items|
  }

  // A sentinel whose vault value is the text.
  ghost predicate Refers(y: Node, text: string, values: Values) {
    exists u :: y == Leaf(Str(SENTINEL_PREFIX + u)) && u in values && values[u] == text
  }

  // One step down.
  lemma ChildMasked(n: Node, step: Step, fields: set<string>, uuid: nat -> string, k: nat, values: Values) returns (j: nat)
    requires Holds(values, Secrets(n, fields), uuid, k)
    ensures var c, d := Child(n, step), Child(Masked(n, fields, uuid, k), step);
            && (c.Some? <==> d.Some?)
            && (c.Some? ==>
                  if SecretAt(n, [step], fields) then MaskedInto(c.value, d.value, true, values)
                  else Holds(values, Secrets(c.value, fields), uuid, j) && d.value == Masked(c.value, fields, uuid, j))
  {
    hide MaskedPair, Holds, SecretsOf, PairSecrets, ItemSecrets, SecretOf, MaskedPairs, MaskedItems, MaskedInto;
    j := k;
    match n
    case Leaf(_) =>
    case Map(pairs) =>
      if !step.ItemAt? && step.i < |pairs| {
        var i := MaskedPairAt(pairs, step.i, fields, uuid, k, values);
        j := PairMasked(pairs[step.i], step, fields, uuid, i, values);
      }
    case Seq(items) =>
      if step.ItemAt? && step.i < |items| {
        j := MaskedItemAt(items, step.i, fields, uuid, k, values);
      }
  }

  lemma PairMasked(pair: Pair, step: Step, fields: set<string>, uuid: nat -> string, i: nat, values: Values) returns (j: nat)
    requires !step.ItemAt? && Holds(values, SecretsOf(pair, fields), uuid, i)
    ensures var m := MaskedPair(pair, fields, uuid, i);
            var c, d := if step.KeyAt? then pair.key else pair.value, if step.KeyAt? then m.key else m.value;
            if step.ValueAt? && SecretOf(pair, fields).Some? then MaskedInto(c, d, true, values)
            else Holds(values, Secrets(c, fields), uuid, j) && d == Masked(c, fields, uuid, j)
  {
    hide IsSecretKey, IsSentinel;
    if SecretOf(pair, fields).Some? {
      j := i;
      TakenIff(pair, fields);
      assert Secrets(pair.key, fields) == [] && Masked(pair.key, fields, uuid, i) == pair.key;
    } else {
      HoldsSplit(values, Secrets(pair.key, fields), Secrets(pair.value, fields), uuid, i);
      j := if step.KeyAt? then i else i + |Secrets(pair.key, fields)|;
    }
  }

  lemma {:induction false} WalkMasked(n: Node, path: seq<Step>, fields: set<string>, uuid: nat -> string, k: nat, values: Values)
    requires Holds(values, Secrets(n, fields), uuid, k)
    ensures var c, d := At(n, path), At(Masked(n, fields, uuid, k), path);
            && (c.Some? <==> d.Some?)
            && (c.Some? ==> MaskedInto(c.value, d.value, SecretAt(n, path, fields), values))
    decreases |path|
  {
    var m := Masked(n, fields, uuid, k);
    if path != [] {
      var j := ChildMasked(n, path[0], fields, uuid, k, values);
      hide Masked, Holds, Child, SecretOf, Secrets;
      var c, d := Child(n, path[0]), Child(m, path[0]);
      if c.Some? {
        if |path| == 1 {
          assert path == [path[0]] && path[1..] == [];
          if !SecretAt(n, path, fields) {
            ShapeMasked(c.value, fields, uuid, j, values);
          }
        } else if SecretAt(n, [path[0]], fields) {
          LeafHasNoChild(c.value, path[1]);
          LeafHasNoChild(d.value, path[1]);
        } else {
          WalkMasked(c.value, path[1..], fields, uuid, j, values);
        }
      }
    } else {
      ShapeMasked(n, fields, uuid, k, values);
    }
  }

  lemma ShapeMasked(n: Node, fields: set<string>, uuid: nat -> string, k: nat, values: Values)
    ensures MaskedInto(n, Masked(n, fields, uuid, k), false, values)
  {
  }

  // Masking scalar by scalar: what is taken out becomes a sentinel under which the vault
  // has its text, and every other scalar and the shape of the document stay.
  lemma MaskedAtPath(env: Env, v: VaultState, n: Node, path: seq<Step>)
    requires Distinct(env.uuid)
    ensures var values := ValuesOf(AfterMask(env, v, n).entries);
            var c, d := At(n, path), At(MaskedWith(env, v, n), path);
            && (c.Some? <==> d.Some?)
            && (c.Some? ==> MaskedInto(c.value, d.value, TakenAt(n, path, env.fields), values))
  {
    hide Masked, Holds, Secrets, AddSecrets, TakenAt, MaskedInto, At;
    AddSecretsHolds(v.entries, Secrets(n, env.fields), env.uuid, v.next, []);
    WalkMasked(n, path, env.fields, env.uuid, v.next, ValuesOf(AfterMask(env, v, n).entries));
    TakenAtIff(n, path, env.fields);
  }

  // ----- unmasking by path -----

  // The scalar at the path is a sentinel beside a scalar key.
  ghost predicate RefersAt(n: Node, path: seq<Step>) {
    && path != [] && path[|path| - 1].ValueAt?
    && var i, parent := path[|path| - 1].i, At(n, path[..|path| - 1]);
       parent.Some? && parent.value.Map? && i < |parent.value.pairs| && Reference(parent.value.pairs[i])
  }

  predicate Reference(pair: Pair) {
    pair.key.Leaf? && pair.value.Leaf? && pair.value.value.Str? && SENTINEL_PREFIX <= pair.value.value.s
  }

  ghost predicate UnmaskedInto(x: Node, y: Node, refers: bool, values: Values) {
    if refers then
      && x.Leaf? && x.value.Str? && |SENTINEL_PREFIX| <= |x.value.s|
      && var u := x.value.s[|SENTINEL_PREFIX|..]; u in values && y == Leaf(Str(values[u]))
    else
      match x
      case Leaf(_) => y == x
      case Map(pairs) => y.Map? && |y.pairs| == |pairs|
      case Seq(items) => y.Seq? && |y.items| == |items|
  }

  lemma {:induction false} PairsUnmaskedAt(pairs: seq<Pair>, i: nat, values: Values)
    requires i < |pairs| && UnmaskPairs(pairs, values).Ok?
    ensures |UnmaskPairs(pairs, values).value| == |pairs|
    ensures UnmaskPair(pairs[i], values) == Ok(UnmaskPairs(pairs, values).value[i])
    decreases |pairs|
  {
    hide UnmaskPair;
    PairsUnmaskedSize(pairs, values);
    if i > 0 {
      PairsUnmaskedAt(pairs[1..], i - 1, values);
    }
  }

  lemma {:induction false} PairsUnmaskedSize(pairs: seq<Pair>, values: Values)
    requires UnmaskPairs(pairs, values).Ok?
    ensures |UnmaskPairs(pairs, values).value| == |pairs|
    decreases |pairs|
  {
    hide UnmaskPair;
    if pairs != [] {
      PairsUnmaskedSize(pairs[1..], values);
    }
  }

  lemma {:induction false} ItemsUnmaskedAt(items: seq<Node>, i: nat, values: Values)
    requires i < |items| && UnmaskItems(items, values).Ok?
    ensures |UnmaskItems(items, values).value| == |items|
    ensures Unmask(items[i], values) == Ok(UnmaskItems(items, values).value[i])
    decreases |items|
  {
    hide Unmask;
    ItemsUnmaskedSize(items, values);
    if i > 0 {
      ItemsUnmaskedAt(items[1..], i - 1, values);
    }
  }

  lemma {:induction false} ItemsUnmaskedSize(items: seq<Node>, values: Values)
    requires UnmaskItems(items, values).Ok?
    ensures |UnmaskItems(items, values).value| == |items|
    decreases |items|
  {
    hide Unmask;
    if items != [] {
      ItemsUnmaskedSize(items[1..], values);
    }
  }

  lemma ShapeUnmasked(n: Node, values: Values)
    requires Unmask(n, values).Ok?
    ensures UnmaskedInto(n, Unmask(n, values).value, false, values)
  {
    match n
    case Leaf(_) =>
    case Map(pairs) => PairsUnmaskedSize(pairs, values);
    case Seq(items) => ItemsUnmaskedSize(items, values);
  }

  lemma ChildUnmasked(n: Node, step: Step, values: Values)
    requires Unmask(n, values).Ok?
    ensures var c, d := Child(n, step), Child(Unmask(n, values).value, step);
            && (c.Some? <==> d.Some?)
            && (c.Some? ==>
                  if RefersAt(n, [step]) then UnmaskedInto(c.value, d.value, true, values)
                  else Unmask(c.value, values) == Ok(d.value))
  {
    assert [step][..0] == [];
    ShapeUnmasked(n, values);
    match n
    case Leaf(_) =>
    case Map(pairs) =>
      if !step.ItemAt? && step.i < |pairs| {
        PairsUnmaskedAt(pairs, step.i, values);
        hide UnmaskPairs;
      }
    case Seq(items) =>
      if step.ItemAt? && step.i < |items| {
        ItemsUnmaskedAt(items, step.i, values);
      }
  }

  lemma RefersInside(n: Node, path: seq<Step>)
    requires |path| > 1 && Child(n, path[0]).Some?
    ensures RefersAt(n, path) <==> RefersAt(Child(n, path[0]).value, path[1..])
  {
    var front := path[..|path| - 1];
    assert front[0] == path[0] && front[1..] == path[1..][..|path| - 2];
  }

  // Unmasking scalar by scalar: a sentinel beside a scalar key becomes its vault value,
  // and every other scalar and the shape of the document stay.
  lemma {:induction false} UnmaskedAtPath(n: Node, path: seq<Step>, values: Values)
    requires Unmask(n, values).Ok?
    ensures var c, d := At(n, path), At(Unmask(n, values).value, path);
            && (c.Some? <==> d.Some?)
            && (c.Some? ==> UnmaskedInto(c.value, d.value, RefersAt(n, path), values))
    decreases |path|
  {
    if path == [] {
      ShapeUnmasked(n, values);
    } else {
      ChildUnmasked(n, path[0], values);
      var m := Unmask(n, values).value;
      var c, d := Child(n, path[0]), Child(m, path[0]);
      if c.Some? {
        if |path| == 1 {
          assert path == [path[0]] && path[1..] == [];
          if !RefersAt(n, path) {
            ShapeUnmasked(c.value, values);
          }
        } else {
          RefersInside(n, path);
          hide Unmask, Child, RefersAt;
          if RefersAt(n, [path[0]]) {
            LeafHasNoChild(c.value, path[1]);
            LeafHasNoChild(d.value, path[1]);
          } else {
            UnmaskedAtPath(c.value, path[1..], values);
          }
        }
      }
    }
  }

  // ----- the error -----

  // The path leads to a sentinel of u, under a scalar key with that text, and u is not
  // in the vault.
  ghost predicate MissingAt(n: Node, path: seq<Step>, u: string, key: string, values: Values) {
    && path != [] && path[|path| - 1].ValueAt?
    && var i, parent := path[|path| - 1].i, At(n, path[..|path| - 1]);
       && parent.Some? && parent.value.Map? && i < |parent.value.pairs|
       && MissingPair(parent.value.pairs[i], u, key, values)
  }

  predicate MissingPair(pair: Pair, u: string, key: string, values: Values) {
    && pair.key.Leaf? && KeyText(pair.key.value) == key && pair.value == Leaf(Str(SENTINEL_PREFIX + u)) && u !in values
  }

  lemma MissingBelow(n: Node, step: Step, c: Node, path: seq<Step>, u: string, key: string, values: Values)
    requires Child(n, step) == Some(c) && MissingAt(c, path, u, key, values)
    ensures MissingAt(n, [step] + path, u, key, values)
  {
    var full := [step] + path;
    assert full[|full| - 1] == path[|path| - 1];
    var front := full[..|full| - 1];
    assert front[0] == step && front[1..] == path[..|path| - 1];
  }

  // An error names a sentinel of the document that does not resolve, and its key.
  lemma {:induction false} MissingIsThere(n: Node, values: Values) returns (path: seq<Step>)
    requires Unmask(n, values).Err?
    ensures var e := Unmask(n, values).error; MissingAt(n, path, e.uuid, e.key, values)
    decreases n, 0
  {
    hide MissingAt;
    match n
    case Map(pairs) =>
      var i := MissingInPairs(pairs, values);
      path := MissingInPair(n, pairs, i, values);
    case Seq(items) =>
      var i, rest := MissingInItems(items, values);
      MissingBelow(n, ItemAt(i), items[i], rest, Unmask(n, values).error.uuid, Unmask(n, values).error.key, values);
      path := [ItemAt(i)] + rest;
  }

  lemma {:induction false} MissingInPairs(pairs: seq<Pair>, values: Values) returns (i: nat)
    requires UnmaskPairs(pairs, values).Err?
    ensures i < |pairs| && UnmaskPair(pairs[i], values) == Err(UnmaskPairs(pairs, values).error)
    decreases |pairs|
  {
    hide UnmaskPair;
    if UnmaskPair(pairs[0], values).Err? {
      i := 0;
    } else {
      i := MissingInPairs(pairs[1..], values);
      i := i + 1;
    }
  }

  lemma {:induction false} MissingInPair(n: Node, pairs: seq<Pair>, i: nat, values: Values) returns (path: seq<Step>)
    requires n == Map(pairs) && i < |pairs| && UnmaskPair(pairs[i], values).Err?
    ensures var e := UnmaskPair(pairs[i], values).error; MissingAt(n, path, e.uuid, e.key, values)
    decreases pairs[i], 1
  {
    var pair, e := pairs[i], UnmaskPair(pairs[i], values).error;
    if pair.key.Leaf? && pair.value.Leaf? {
      path := [ValueAt(i)];
      assert path[..0] == [];
      assert pair.value.value.s == SENTINEL_PREFIX + e.uuid;
    } else if Unmask(pair.key, values).Err? {
      var rest := MissingIsThere(pair.key, values);
      MissingBelow(n, KeyAt(i), pair.key, rest, e.uuid, e.key, values);
      path := [KeyAt(i)] + rest;
    } else {
      var rest := MissingIsThere(pair.value, values);
      MissingBelow(n, ValueAt(i), pair.value, rest, e.uuid, e.key, values);
      path := [ValueAt(i)] + rest;
    }
  }

  lemma {:induction false} MissingInItems(items: seq<Node>, values: Values) returns (i: nat, path: seq<Step>)
    requires UnmaskItems(items, values).Err?
    ensures i < |items| && var e := UnmaskItems(items, values).error; MissingAt(items[i], path, e.uuid, e.key, values)
    decreases items, 0
  {
    hide MissingAt;
    if Unmask(items[0], values).Err? {
      path := MissingIsThere(items[0], values);
      i := 0;
    } else {
      i, path := MissingInItems(items[1..], values);
      i := i + 1;
    }
  }
}
