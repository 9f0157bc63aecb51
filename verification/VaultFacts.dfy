// What single operations keep: fresh uuids, plain values, and the values already stored.
module VaultFacts {
  import opened Yaml
  import opened Mask
  import opened MaskLaws
  import opened VaultStore
  import opened Snapshots

  // ----- the vault -----

  ghost predicate Distinct(uuid: nat -> string) {
    forall i, j :: uuid(i) == uuid(j) ==> i == j
  }

  // No uuid still to be drawn is in use.
  ghost predicate Fresh(uuid: nat -> string, v: VaultState) {
    forall i: nat :: i >= v.next ==> uuid(i) !in v.entries
  }

  // No stored value is a sentinel.
  ghost predicate Plain(entries: Entries) {
    forall u :: u in entries ==> !IsSentinel(entries[u].value)
  }

  ghost predicate Drawn(uuid: nat -> string, k: nat, u: string) {
    exists i: nat :: i >= k && uuid(i) == u
  }

  // w comes later than v: an entry of w is an entry of v with the same value, or it
  // was drawn after v.
  ghost predicate Later(uuid: nat -> string, v: VaultState, w: VaultState) {
    && v.next <= w.next
    && forall u :: u in w.entries ==>
         (u in v.entries && w.entries[u].value == v.entries[u].value) || Drawn(uuid, v.next, u)
  }

  lemma LaterTrans(uuid: nat -> string, u: VaultState, v: VaultState, w: VaultState)
    requires Later(uuid, u, v) && Later(uuid, v, w)
    ensures Later(uuid, u, w)
  {
    forall x | x in w.entries
      ensures (x in u.entries && w.entries[x].value == u.entries[x].value) || Drawn(uuid, u.next, x)
    {
      if Drawn(uuid, v.next, x) {
        var i: nat :| i >= v.next && uuid(i) == x;
        assert i >= u.next && uuid(i) == x;
      }
    }
  }

  // An entry present at both ends has kept its value.
  lemma ValueKept(uuid: nat -> string, v: VaultState, w: VaultState, u: string)
    requires Fresh(uuid, v) && Later(uuid, v, w) && u in v.entries && u in w.entries
    ensures w.entries[u].value == v.entries[u].value
  {
    assert !Drawn(uuid, v.next, u);
  }

  // Entries with the same values, and perhaps fewer of them.
  ghost predicate SameValues(from: Entries, to: Entries) {
    forall u :: u in to ==> u in from && to[u].value == from[u].value
  }

  lemma Shrunk(uuid: nat -> string, v: VaultState, entries: Entries)
    requires SameValues(v.entries, entries)
    ensures var w := v.(entries := entries);
            && Later(uuid, v, w)
            && (Fresh(uuid, v) ==> Fresh(uuid, w))
            && (Plain(v.entries) ==> Plain(entries))
  {
  }

  lemma SameValuesTrans(a: Entries, b: Entries, c: Entries)
    requires SameValues(a, b) && SameValues(b, c)
    ensures SameValues(a, c)
  {
  }

  lemma {:induction false} DropAllSame(entries: Entries, ids: seq<string>)
    ensures DropAll(entries, ids).Keys == entries.Keys && SameValues(entries, DropAll(entries, ids))
    decreases |ids|
  {
    if ids != [] {
      var rest := DropReferences(entries, ids[0]);
      DropAllSame(rest, ids[1..]);
      SameValuesTrans(entries, rest, DropAll(rest, ids[1..]));
    }
  }

  // ----- masking -----

  lemma {:induction false} AddSecretsKeys(entries: Entries, secrets: seq<string>, uuid: nat -> string, k: nat, refs: seq<string>)
    ensures AddSecrets(entries, secrets, uuid, k, refs).Keys == entries.Keys + Minted(uuid, k, |secrets|)
    decreases |secrets|
  {
    if secrets != [] {
      AddSecretsKeys(entries[uuid(k) := Entry(secrets[0], refs)], secrets[1..], uuid, k + 1, refs);
    }
  }

  lemma {:induction false} AddSecretsOld(entries: Entries, secrets: seq<string>, uuid: nat -> string, k: nat, refs: seq<string>, u: string)
    requires u in entries && u !in Minted(uuid, k, |secrets|)
    ensures var e := AddSecrets(entries, secrets, uuid, k, refs); u in e && e[u] == entries[u]
    decreases |secrets|
  {
    if secrets != [] {
      AddSecretsOld(entries[uuid(k) := Entry(secrets[0], refs)], secrets[1..], uuid, k + 1, refs, u);
    }
  }

  lemma NotMinted(uuid: nat -> string, k: nat, count: nat, i: nat)
    requires Distinct(uuid) && !(k <= i < k + count)
    ensures uuid(i) !in Minted(uuid, k, count)
  {
    if uuid(i) in Minted(uuid, k, count) {
      var j := MintedIndex(uuid, k, count, uuid(i));
    }
  }

  lemma {:induction false} AddSecretsHolds(entries: Entries, secrets: seq<string>, uuid: nat -> string, k: nat, refs: seq<string>)
    requires Distinct(uuid)
    ensures Holds(ValuesOf(AddSecrets(entries, secrets, uuid, k, refs)), secrets, uuid, k)
    decreases |secrets|
  {
    if secrets != [] {
      var e := entries[uuid(k) := Entry(secrets[0], refs)];
      AddSecretsHolds(e, secrets[1..], uuid, k + 1, refs);
      NotMinted(uuid, k + 1, |secrets| - 1, k);
      AddSecretsOld(e, secrets[1..], uuid, k + 1, refs, uuid(k));
    }
  }

  ghost predicate AllPlain(secrets: seq<string>) {
    secrets != [] ==> !IsSentinel(secrets[0]) && AllPlain(secrets[1..])
  }

  lemma {:induction false} AllPlainConcat(a: seq<string>, b: seq<string>)
    requires AllPlain(a) && AllPlain(b)
    ensures AllPlain(a + b)
    decreases |a|
  {
    if a == [] {
      assert a + b == b;
    } else {
      assert (a + b)[1..] == a[1..] + b;
      AllPlainConcat(a[1..], b);
    }
  }

  // Masking never stores a sentinel.
  lemma {:induction false} SecretsPlain(n: Node, fields: set<string>)
    ensures AllPlain(Secrets(n, fields))
    decreases n, 0
  {
    match n
    case Leaf(_) =>
    case Map(pairs) => PairSecretsPlain(pairs, fields);
    case Seq(items) => ItemSecretsPlain(items, fields);
  }

  lemma {:induction false} SecretsOfPlain(pair: Pair, fields: set<string>)
    ensures AllPlain(SecretsOf(pair, fields))
    decreases pair, 1
  {
    SecretsPlain(pair.key, fields);
    SecretsPlain(pair.value, fields);
    AllPlainConcat(Secrets(pair.key, fields), Secrets(pair.value, fields));
  }

  lemma {:induction false} PairSecretsPlain(pairs: seq<Pair>, fields: set<string>)
    ensures AllPlain(PairSecrets(pairs, fields))
    decreases pairs, 0
  {
    if pairs != [] {
      SecretsOfPlain(pairs[0], fields);
      PairSecretsPlain(pairs[1..], fields);
      AllPlainConcat(SecretsOf(pairs[0], fields), PairSecrets(pairs[1..], fields));
    }
  }

  lemma {:induction false} ItemSecretsPlain(items: seq<Node>, fields: set<string>)
    ensures AllPlain(ItemSecrets(items, fields))
    decreases items, 0
  {
    if items != [] {
      SecretsPlain(items[0], fields);
      ItemSecretsPlain(items[1..], fields);
      AllPlainConcat(Secrets(items[0], fields), ItemSecrets(items[1..], fields));
    }
  }

  lemma {:induction false} AddSecretsPlain(entries: Entries, secrets: seq<string>, uuid: nat -> string, k: nat, refs: seq<string>)
    requires Plain(entries) && AllPlain(secrets)
    ensures Plain(AddSecrets(entries, secrets, uuid, k, refs))
    decreases |secrets|
  {
    if secrets != [] {
      AddSecretsPlain(entries[uuid(k) := Entry(secrets[0], refs)], secrets[1..], uuid, k + 1, refs);
    }
  }

  // Masking keeps freshness, plain values and all stored values.
  lemma AfterMaskKeeps(env: Env, v: VaultState, n: Node)
    requires Distinct(env.uuid) && Fresh(env.uuid, v)
    ensures var w := AfterMask(env, v, n);
            && Fresh(env.uuid, w) && Later(env.uuid, v, w)
            && w.entries.Keys == v.entries.Keys + Minted(env.uuid, v.next, |Secrets(n, env.fields)|)
            && (Plain(v.entries) ==> Plain(w.entries))
  {
    var secrets := Secrets(n, env.fields);
    var w := AfterMask(env, v, n);
    AddSecretsKeys(v.entries, secrets, env.uuid, v.next, []);
    forall i: nat | i >= w.next
      ensures env.uuid(i) !in w.entries
    {
      NotMinted(env.uuid, v.next, |secrets|, i);
    }
    forall u | u in w.entries
      ensures (u in v.entries && w.entries[u].value == v.entries[u].value) || Drawn(env.uuid, v.next, u)
    {
      if u in Minted(env.uuid, v.next, |secrets|) {
        var i := MintedIndex(env.uuid, v.next, |secrets|, u);
      } else {
        AddSecretsOld(v.entries, secrets, env.uuid, v.next, [], u);
      }
    }
    if Plain(v.entries) {
      SecretsPlain(n, env.fields);
      AddSecretsPlain(v.entries, secrets, env.uuid, v.next, []);
    }
  }

  // Dropping what a mask minted gives back the entries before it.
  lemma UnmintRestores(env: Env, v: VaultState, n: Node)
    requires Distinct(env.uuid) && Fresh(env.uuid, v)
    ensures AfterMask(env, v, n).entries - ToSet(MintedBy(env, v, n)) == v.entries
  {
    var count := |Secrets(n, env.fields)|;
    var minted := Minted(env.uuid, v.next, count);
    var w := AfterMask(env, v, n);
    AddSecretsKeys(v.entries, Secrets(n, env.fields), env.uuid, v.next, []);
    MintedSeqSet(env.uuid, v.next, count);
    forall u | u in v.entries
      ensures u !in minted && u in w.entries && w.entries[u] == v.entries[u]
    {
      if u in minted {
        var i := MintedIndex(env.uuid, v.next, count, u);
      } else {
        AddSecretsOld(v.entries, Secrets(n, env.fields), env.uuid, v.next, [], u);
      }
    }
    assert (w.entries - minted).Keys == v.entries.Keys;
  }

  lemma {:induction false} MintedSeqSet(uuid: nat -> string, k: nat, count: nat)
    ensures ToSet(MintedSeq(uuid, k, count)) == Minted(uuid, k, count)
    decreases count
  {
    if count > 0 {
      MintedSeqSet(uuid, k + 1, count - 1);
      var rest := MintedSeq(uuid, k + 1, count - 1);
      forall u
        ensures u in ToSet([uuid(k)] + rest) <==> u in {uuid(k)} + ToSet(rest)
      {
      }
    }
  }

  // ----- references -----

  // The references after one more was recorded: those there were, in order, and the new
  // one behind them unless it was among them.
  ghost predicate RecordedOnce(before: seq<string>, after: seq<string>, id: string) {
    && before <= after && id in after
    && (id in before ==> |after| == |before|) && (id !in before ==> |after| == |before| + 1)
  }

  // Recording a snapshot changes only the listed entries, keeps every value, and lists the
  // snapshot there once however often it is recorded. Dropping it undoes that.
  lemma ReferencesRecorded(entries: Entries, id: string, uuids: seq<string>, u: string)
    requires u in entries
    ensures var r := Referenced(entries, id, uuids);
            && r.Keys == entries.Keys && r[u].value == entries[u].value
            && (u !in uuids ==> r[u] == entries[u])
            && (u in uuids ==> RecordedOnce(entries[u].referencedBy, r[u].referencedBy, id))
            && Referenced(r, id, uuids) == r
            && (u in uuids && id !in entries[u].referencedBy ==> DropReferences(r, id)[u] == entries[u])
  {
    hide WithoutFirst;
    var r := Referenced(entries, id, uuids);
    var refs := entries[u].referencedBy;
    forall x | x in r ensures Referenced(r, id, uuids)[x] == r[x] {}
    if u in uuids && id !in refs {
      assert r[u].referencedBy == refs + [id];
      FirstDropped(refs, id);
      assert Unreferenced(r[u], id) == Entry(entries[u].value, refs);
    }
  }

  lemma {:induction false} FirstDropped(ids: seq<string>, id: string)
    requires id !in ids
    ensures WithoutFirst(ids + [id], id) == ids
  {
    if ids != [] {
      assert (ids + [id])[1..] == ids[1..] + [id];
      FirstDropped(ids[1..], id);
    }
  }
}
