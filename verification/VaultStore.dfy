// The secret vault (apps/server/src/vault/vault.ts). Encryption and the file on disk
// are not part of this model; each call is one atomic step on the payload.
module VaultStore {
  import opened Outcome
  import opened Yaml
  import opened YamlTree
  import opened Mask
  import opened MaskLaws

  datatype Entry = Entry(value: string, referencedBy: seq<string>)

  type Entries = map<string, Entry>

  // ----- specification of the operations -----

  function ValuesOf(entries: Entries): Values {
    map u | u in entries :: entries[u].value
  }

  // The entries after the secrets are stored under uuid(k) onwards.
  function AddSecrets(entries: Entries, secrets: seq<string>, uuid: nat -> string, k: nat, refs: seq<string>): Entries
    decreases |secrets|
  {
    if secrets == [] then entries
    else AddSecrets(entries[uuid(k) := Entry(secrets[0], refs)], secrets[1..], uuid, k + 1, refs)
  }

  function MintedSeq(uuid: nat -> string, k: nat, count: nat): (r: seq<string>)
    decreases count
  {
    if count == 0 then [] else [uuid(k)] + MintedSeq(uuid, k + 1, count - 1)
  }

  function Restrict(entries: Entries, live: set<string>): Entries {
    map u | u in entries && u in live :: entries[u]
  }

  function WithReference(e: Entry, id: string): Entry {
    if id in e.referencedBy then e else e.(referencedBy := e.referencedBy + [id])
  }

  function Referenced(entries: Entries, id: string, uuids: seq<string>): Entries {
    map u | u in entries :: if u in uuids then WithReference(entries[u], id) else entries[u]
  }

  // The list without the first occurrence of id.
  function WithoutFirst(ids: seq<string>, id: string): seq<string> {
    if ids == [] then []
    else if ids[0] == id then ids[1..]
    else [ids[0]] + WithoutFirst(ids[1..], id)
  }

  function Unreferenced(e: Entry, id: string): Entry {
    e.(referencedBy := WithoutFirst(e.referencedBy, id))
  }

  function DropReferences(entries: Entries, id: string): Entries {
    map u | u in entries :: Unreferenced(entries[u], id)
  }

  function IndexOfId(ids: seq<string>, id: string): (r: Option<nat>)
    ensures r.Some? ==> r.value < |ids|
  {
    if ids == [] then None
    else if ids[0] == id then Some(0)
    else match IndexOfId(ids[1..], id)
      case Some(i) => Some(i + 1)
      case None => None
  }

  lemma {:induction false} WithoutFirstAt(ids: seq<string>, id: string)
    ensures WithoutFirst(ids, id) ==
            match IndexOfId(ids, id)
            case Some(i) => ids[..i] + ids[i + 1..]
            case None => ids
  {
    if ids != [] && ids[0] != id {
      WithoutFirstAt(ids[1..], id);
      var r := IndexOfId(ids[1..], id);
      if r.Some? {
        assert ids[..r.value + 1] == [ids[0]] + ids[1..][..r.value];
      }
    }
  }

  // The owner recorded at mask time.
  function Owner(snapshotId: Option<string>): seq<string> {
    match snapshotId
    case Some(id) => [id]
    case None => []
  }

  function Failure<T>(r: Result<T, MissingSecret>): Option<MissingSecret> {
    if r.Err? then Some(r.error) else None
  }

  lemma {:induction false} AddSecretsSplit(entries: Entries, a: seq<string>, b: seq<string>, uuid: nat -> string, k: nat, refs: seq<string>)
    ensures AddSecrets(entries, a + b, uuid, k, refs) ==
            AddSecrets(AddSecrets(entries, a, uuid, k, refs), b, uuid, k + |a|, refs)
    decreases |a|
  {
    if a == [] {
      assert a + b == b;
    } else {
      assert (a + b)[1..] == a[1..] + b;
      AddSecretsSplit(entries[uuid(k) := Entry(a[0], refs)], a[1..], b, uuid, k + 1, refs);
    }
  }

  lemma {:induction false} MintedSeqSplit(uuid: nat -> string, k: nat, a: nat, b: nat)
    ensures MintedSeq(uuid, k, a + b) == MintedSeq(uuid, k, a) + MintedSeq(uuid, k + a, b)
    decreases a
  {
    if a > 0 {
      MintedSeqSplit(uuid, k + 1, a - 1, b);
    }
  }

  // ----- the vault -----

  // The payload, and how many uuids have been drawn.
  datatype VaultState = VaultState(entries: Entries, next: nat)

  // What masking adds to a payload.
  ghost predicate Stored(s: VaultState, t: VaultState, secrets: seq<string>, uuid: nat -> string, refs: seq<string>, minted: seq<string>) {
    && t.next == s.next + |secrets|
    && t.entries == AddSecrets(s.entries, secrets, uuid, s.next, refs)
    && minted == MintedSeq(uuid, s.next, |secrets|)
  }

  lemma StoredThen(r: VaultState, s: VaultState, t: VaultState, a: seq<string>, b: seq<string>, uuid: nat -> string, refs: seq<string>, first: seq<string>, second: seq<string>)
    requires Stored(r, s, a, uuid, refs, first) && Stored(s, t, b, uuid, refs, second)
    ensures Stored(r, t, a + b, uuid, refs, first + second)
  {
    hide AddSecrets, MintedSeq;
    AddSecretsSplit(r.entries, a, b, uuid, r.next, refs);
    MintedSeqSplit(uuid, r.next, |a|, |b|);
  }

  // What masking does to a node, and to the parts of one: the secrets are stored and
  // replaced by sentinels, in visiting order.
  ghost predicate NodeMasked(fields: set<string>, uuid: nat -> string, refs: seq<string>,
                             before: Node, after: Node, s: VaultState, t: VaultState, minted: seq<string>) {
    after == Masked(before, fields, uuid, s.next) && Stored(s, t, Secrets(before, fields), uuid, refs, minted)
  }

  ghost predicate PairMasked(fields: set<string>, uuid: nat -> string, refs: seq<string>,
                             before: Pair, after: Pair, s: VaultState, t: VaultState, minted: seq<string>) {
    after == MaskedPair(before, fields, uuid, s.next) && Stored(s, t, SecretsOf(before, fields), uuid, refs, minted)
  }

  ghost predicate PairsMasked(fields: set<string>, uuid: nat -> string, refs: seq<string>,
                              before: seq<Pair>, after: seq<Pair>, s: VaultState, t: VaultState, minted: seq<string>) {
    after == MaskedPairs(before, fields, uuid, s.next) && Stored(s, t, PairSecrets(before, fields), uuid, refs, minted)
  }

  ghost predicate ItemsMasked(fields: set<string>, uuid: nat -> string, refs: seq<string>,
                              before: seq<Node>, after: seq<Node>, s: VaultState, t: VaultState, minted: seq<string>) {
    after == MaskedItems(before, fields, uuid, s.next) && Stored(s, t, ItemSecrets(before, fields), uuid, refs, minted)
  }

  lemma PairMaskedParts(fields: set<string>, uuid: nat -> string, refs: seq<string>, before: Pair, key: Node, value: Node,
                        r: VaultState, s: VaultState, t: VaultState, first: seq<string>, second: seq<string>)
    requires SecretOf(before, fields).None?
    requires NodeMasked(fields, uuid, refs, before.key, key, r, s, first)
    requires NodeMasked(fields, uuid, refs, before.value, value, s, t, second)
    ensures PairMasked(fields, uuid, refs, before, Pair(key, value), r, t, first + second)
  {
    StoredThen(r, s, t, Secrets(before.key, fields), Secrets(before.value, fields), uuid, refs, first, second);
    hide Masked, Secrets, SecretOf, AddSecrets, MintedSeq;
  }

  lemma PairMaskedSecret(fields: set<string>, uuid: nat -> string, refs: seq<string>, before: Pair, s: VaultState, t: VaultState, id: string)
    requires SecretOf(before, fields).Some? && id == uuid(s.next)
    requires Stored(s, t, [SecretOf(before, fields).value], uuid, refs, [id])
    ensures PairMasked(fields, uuid, refs, before, Pair(before.key, Leaf(Str(Sentinel(id)))), s, t, [id])
  {
    hide Stored, SecretOf;
  }

  lemma PairsMaskedCons(fields: set<string>, uuid: nat -> string, refs: seq<string>, head: Pair, tail: seq<Pair>, newHead: Pair, newTail: seq<Pair>,
                        r: VaultState, s: VaultState, t: VaultState, first: seq<string>, second: seq<string>)
    requires PairMasked(fields, uuid, refs, head, newHead, r, s, first)
    requires PairsMasked(fields, uuid, refs, tail, newTail, s, t, second)
    ensures PairsMasked(fields, uuid, refs, [head] + tail, [newHead] + newTail, r, t, first + second)
  {
    StoredThen(r, s, t, SecretsOf(head, fields), PairSecrets(tail, fields), uuid, refs, first, second);
    hide MaskedPair, SecretsOf, AddSecrets, MintedSeq;
    assert ([head] + tail)[1..] == tail;
  }

  lemma ItemsMaskedCons(fields: set<string>, uuid: nat -> string, refs: seq<string>, head: Node, tail: seq<Node>, newHead: Node, newTail: seq<Node>,
                        r: VaultState, s: VaultState, t: VaultState, first: seq<string>, second: seq<string>)
    requires NodeMasked(fields, uuid, refs, head, newHead, r, s, first)
    requires ItemsMasked(fields, uuid, refs, tail, newTail, s, t, second)
    ensures ItemsMasked(fields, uuid, refs, [head] + tail, [newHead] + newTail, r, t, first + second)
  {
    StoredThen(r, s, t, Secrets(head, fields), ItemSecrets(tail, fields), uuid, refs, first, second);
    hide Masked, Secrets, AddSecrets, MintedSeq;
    assert ([head] + tail)[1..] == tail;
  }

  class Vault {
    const fields: set<string>
    const uuid: nat -> string // the uuids the generator returns, in order
    var next: nat
    var entries: Entries

    constructor (fields: set<string>, uuid: nat -> string)
      ensures this.fields == fields && this.uuid == uuid && State() == VaultState(map[], 0)
    {
      this.fields := fields;
      this.uuid := uuid;
      next := 0;
      entries := map[];
    }

    ghost function State(): VaultState
      reads this
    {
      VaultState(entries, next)
    }

    // Callback of the walk: stores the current value and returns its sentinel.
    method StoreSecret(value: string, refs: seq<string>) returns (id: string)
      modifies this
      ensures id == uuid(old(next))
      ensures Stored(old(State()), State(), [value], uuid, refs, [id])
    {
      id := uuid(next);
      entries := entries[id := Entry(value, refs)];
      next := next + 1;
      assert MintedSeq(uuid, old(next), 1) == [id] + MintedSeq(uuid, old(next) + 1, 0);
    }

    // In-place masking: every secret scalar is stored and overwritten with a sentinel.
    method MaskTree(t: Tree, refs: seq<string>) returns (minted: seq<string>)
      requires Separate(t) && allocated(Nodes(t))
      modifies this, Nodes(t)
      ensures NodeMasked(fields, uuid, refs, old(View(t)), View(t), old(State()), State(), minted)
      decreases t, 0
    {
      match t
      case ScalarTree(_) => minted := [];
      case MapTree(pairs) => minted := MaskPairs(pairs, refs);
      case SeqTree(items) => minted := MaskItems(items, refs);
    }

    // The text to store for a pair: the key is secret, and the value is a scalar that
    // is neither null nor a sentinel.
    method CurrentSecret(p: PairTree) returns (text: Option<string>)
      ensures text == SecretOf(PairView(p), fields)
    {
      if !p.key.ScalarTree? || !IsSecretKey(KeyText(p.key.node.value), fields) || !p.value.ScalarTree? {
        return None;
      }
      match p.value.node.value
      case Str(s) => text := if IsSentinel(s) then None else Some(s);
      case Other(raw) => text := if IsSentinel(raw) then None else Some(raw);
      case Null => text := None;
    }

    method MaskPair(p: PairTree, refs: seq<string>) returns (minted: seq<string>)
      requires PairSeparate(p) && allocated(PairNodes(p))
      modifies this, PairNodes(p)
      ensures PairMasked(fields, uuid, refs, old(PairView(p)), PairView(p), old(State()), State(), minted)
      decreases p, 1
    {
      hide PairMasked, NodeMasked, Stored, SecretOf, Sentinel;
      ghost var before := PairView(p);
      var text := CurrentSecret(p);
      if text.Some? {
        SecretScalar(p, fields);
        var id := StoreSecret(text.value, refs);
        PairMaskedSecret(fields, uuid, refs, before, old(State()), State(), id);
        p.value.node.value := Str(Sentinel(id));
        return [id];
      }
      hide View;
      var first := MaskTree(p.key, refs);
      assert View(p.value) == before.value;
      ghost var key, middle := View(p.key), State();
      var second := MaskTree(p.value, refs);
      assert View(p.key) == key;
      minted := first + second;
      PairMaskedParts(fields, uuid, refs, before, key, View(p.value), old(State()), middle, State(), first, second);
    }

    lemma SecretScalar(p: PairTree, fields: set<string>)
      requires SecretOf(PairView(p), fields).Some?
      ensures p.value.ScalarTree? && p.key.ScalarTree?
    {
    }

    method MaskPairs(pairs: seq<PairTree>, refs: seq<string>) returns (minted: seq<string>)
      requires PairsSeparate(pairs) && allocated(PairsNodes(pairs))
      modifies this, PairsNodes(pairs)
      ensures PairsMasked(fields, uuid, refs, old(PairsView(pairs)), PairsView(pairs), old(State()), State(), minted)
      decreases pairs, 0
    {
      if pairs == [] {
        return [];
      }
      hide PairMasked, PairsMasked, PairView, PairNodes, PairSeparate;
      ghost var head, tail := PairView(pairs[0]), PairsView(pairs[1..]);
      assert PairsView(pairs) == [head] + tail;
      var first := MaskPair(pairs[0], refs);
      assert PairsView(pairs[1..]) == tail;
      ghost var newHead, middle := PairView(pairs[0]), State();
      var second := MaskPairs(pairs[1..], refs);
      assert PairView(pairs[0]) == newHead;
      minted := first + second;
      PairsMaskedCons(fields, uuid, refs, head, tail, newHead, PairsView(pairs[1..]), old(State()), middle, State(), first, second);
    }

    method MaskItems(items: seq<Tree>, refs: seq<string>) returns (minted: seq<string>)
      requires ItemsSeparate(items) && allocated(ItemsNodes(items))
      modifies this, ItemsNodes(items)
      ensures ItemsMasked(fields, uuid, refs, old(ItemsView(items)), ItemsView(items), old(State()), State(), minted)
      decreases items, 0
    {
      if items == [] {
        return [];
      }
      hide NodeMasked, ItemsMasked, View, Nodes, Separate;
      ghost var head, tail := View(items[0]), ItemsView(items[1..]);
      assert ItemsView(items) == [head] + tail;
      var first := MaskTree(items[0], refs);
      assert ItemsView(items[1..]) == tail;
      ghost var newHead, middle := View(items[0]), State();
      var second := MaskItems(items[1..], refs);
      assert View(items[0]) == newHead;
      minted := first + second;
      ItemsMaskedCons(fields, uuid, refs, head, tail, newHead, ItemsView(items[1..]), old(State()), middle, State(), first, second);
    }

    method MaskDoc(t: Tree, snapshotId: Option<string>) returns (minted: seq<string>)
      requires Separate(t) && allocated(Nodes(t))
      modifies this, Nodes(t)
      ensures View(t) == Masked(old(View(t)), fields, uuid, old(next))
      ensures Stored(old(State()), State(), Secrets(old(View(t)), fields), uuid, Owner(snapshotId), minted)
    {
      hide Stored, Masked;
      minted := MaskTree(t, Owner(snapshotId));
    }

    // ----- unmasking -----

    // In-place unmasking: every sentinel is overwritten with its value, up to the
    // first that does not resolve; from there on the document is as it was.
    method UnmaskDoc(t: Tree) returns (missing: Option<MissingSecret>)
      requires Separate(t) && allocated(Nodes(t))
      modifies Nodes(t)
      ensures var r := Unmask(old(View(t)), ValuesOf(entries));
              missing == Failure(r) && (r.Ok? ==> View(t) == r.value)
      ensures View(t) == UpTo(old(View(t)), ValuesOf(entries))
      decreases t, 0
    {
      match t
      case ScalarTree(_) => missing := None;
      case MapTree(pairs) => missing := UnmaskPairTrees(pairs);
      case SeqTree(items) => missing := UnmaskTrees(items);
    }

    method UnmaskPairTree(p: PairTree) returns (missing: Option<MissingSecret>)
      requires PairSeparate(p) && allocated(PairNodes(p))
      modifies PairNodes(p)
      ensures var r := UnmaskPair(old(PairView(p)), ValuesOf(entries));
              missing == Failure(r) && (r.Ok? ==> PairView(p) == r.value)
      ensures PairView(p) == PairUpTo(old(PairView(p)), ValuesOf(entries))
      decreases p, 1
    {
      if p.key.ScalarTree? && p.value.ScalarTree? {
        var v := p.value.node.value;
        if !v.Str? || !IsSentinel(v.s) {
          return None;
        }
        var id := UuidOf(v.s);
        if id !in entries {
          return Some(MissingSecret(id, KeyText(p.key.node.value)));
        }
        p.value.node.value := Str(entries[id].value);
        return None;
      }
      hide Unmask, UpTo, IsSentinel;
      ghost var key, value := View(p.key), View(p.value);
      missing := UnmaskDoc(p.key);
      assert View(p.value) == value;
      if missing.None? {
        missing := UnmaskDoc(p.value);
        assert View(p.key) == Unmask(key, ValuesOf(entries)).value;
      }
    }

    method UnmaskPairTrees(pairs: seq<PairTree>) returns (missing: Option<MissingSecret>)
      requires PairsSeparate(pairs) && allocated(PairsNodes(pairs))
      modifies PairsNodes(pairs)
      ensures var r := UnmaskPairs(old(PairsView(pairs)), ValuesOf(entries));
              missing == Failure(r) && (r.Ok? ==> PairsView(pairs) == r.value)
      ensures PairsView(pairs) == PairsUpTo(old(PairsView(pairs)), ValuesOf(entries))
      decreases pairs, 0
    {
      if pairs == [] {
        return None;
      }
      hide UnmaskPair, UnmaskPairs, PairUpTo, PairsUpTo, PairView, PairNodes, PairSeparate, ValuesOf;
      ghost var values, head, tail := ValuesOf(entries), PairView(pairs[0]), PairsView(pairs[1..]);
      UnmaskPairsCons(head, tail, values);
      PairsUpToCons(head, tail, values);
      missing := UnmaskPairTree(pairs[0]);
      assert PairsView(pairs[1..]) == tail;
      if missing.None? {
        missing := UnmaskPairTrees(pairs[1..]);
        assert PairView(pairs[0]) == UnmaskPair(head, values).value;
      }
    }

    method UnmaskTrees(items: seq<Tree>) returns (missing: Option<MissingSecret>)
      requires ItemsSeparate(items) && allocated(ItemsNodes(items))
      modifies ItemsNodes(items)
      ensures var r := UnmaskItems(old(ItemsView(items)), ValuesOf(entries));
              missing == Failure(r) && (r.Ok? ==> ItemsView(items) == r.value)
      ensures ItemsView(items) == ItemsUpTo(old(ItemsView(items)), ValuesOf(entries))
      decreases items, 0
    {
      if items == [] {
        return None;
      }
      hide Unmask, UnmaskItems, UpTo, ItemsUpTo, View, Nodes, Separate, ValuesOf;
      ghost var values, head, tail := ValuesOf(entries), View(items[0]), ItemsView(items[1..]);
      UnmaskItemsCons(head, tail, values);
      ItemsUpToCons(head, tail, values);
      missing := UnmaskDoc(items[0]);
      assert ItemsView(items[1..]) == tail;
      if missing.None? {
        missing := UnmaskTrees(items[1..]);
        assert View(items[0]) == Unmask(head, values).value;
      }
    }

    // ----- garbage collection and bookkeeping -----

    // Drops every entry outside the live set.
    method Gc(live: set<string>) returns (removed: nat)
      modifies `entries
      ensures entries == Restrict(old(entries), live)
      ensures removed == |old(entries).Keys| - |entries.Keys|
    {
      var keys := entries.Keys;
      removed := 0;
      while keys != {}
        invariant forall u :: u in entries <==> u in old(entries) && (u in keys || u in live)
        invariant forall u :: u in entries ==> entries[u] == old(entries)[u]
        invariant removed == |old(entries).Keys| - |entries.Keys|
        decreases |keys|
      {
        var id :| id in keys;
        keys := keys - {id};
        if id in entries && id !in live {
          removed := Remove(id, removed);
        }
      }
    }

    // Drops the given entries only.
    method GcSet(dead: set<string>) returns (removed: nat)
      modifies `entries
      ensures entries == old(entries) - dead
      ensures removed == |old(entries).Keys| - |entries.Keys|
    {
      var keys := dead;
      removed := 0;
      while keys != {}
        invariant keys <= dead
        invariant forall u :: u in entries <==> u in old(entries) && (u in keys || u !in dead)
        invariant forall u :: u in entries ==> entries[u] == old(entries)[u]
        invariant removed == |old(entries).Keys| - |entries.Keys|
        decreases |keys|
      {
        var id :| id in keys;
        keys := keys - {id};
        if id in entries {
          removed := Remove(id, removed);
        }
      }
    }

    method Remove(id: string, count: nat) returns (removed: nat)
      requires id in entries
      modifies `entries
      ensures entries == old(entries) - {id}
      ensures removed == count + 1 && |entries.Keys| == |old(entries).Keys| - 1
    {
      entries := entries - {id};
      removed := count + 1;
      assert entries.Keys == old(entries).Keys - {id};
    }

    method AddReferences(snapshotId: string, uuids: seq<string>)
      modifies `entries
      ensures entries == Referenced(old(entries), snapshotId, uuids)
    {
      for i := 0 to |uuids|
        invariant entries == Referenced(old(entries), snapshotId, uuids[..i])
      {
        var id := uuids[i];
        if id in entries && snapshotId !in entries[id].referencedBy {
          entries := entries[id := entries[id].(referencedBy := entries[id].referencedBy + [snapshotId])];
        }
        assert uuids[..i + 1] == uuids[..i] + [id];
      }
      assert uuids[..|uuids|] == uuids;
    }

    method DropSnapshotReferences(snapshotId: string)
      modifies `entries
      ensures entries == DropReferences(old(entries), snapshotId)
    {
      var keys := entries.Keys;
      while keys != {}
        invariant keys <= entries.Keys == old(entries).Keys
        invariant forall u :: u in keys ==> entries[u] == old(entries)[u]
        invariant forall u :: u in entries && u !in keys ==> entries[u] == Unreferenced(old(entries)[u], snapshotId)
        decreases |keys|
      {
        var id :| id in keys;
        keys := keys - {id};
        var position := IndexOfId(entries[id].referencedBy, snapshotId);
        WithoutFirstAt(entries[id].referencedBy, snapshotId);
        if position.Some? {
          var ids := entries[id].referencedBy;
          entries := entries[id := entries[id].(referencedBy := ids[..position.value] + ids[position.value + 1..])];
        }
      }
    }
  }
}
