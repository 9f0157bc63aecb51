// Live configuration, snapshot directory and vault, and the operations of the
// snapshot manager on them (apps/server/src/deploy/snapshot.ts,
// apps/server/src/transport/local-fs.ts).
module Snapshots {
  import opened Outcome
  import opened Text
  import opened Yaml
  import opened YamlTree
  import opened Mask
  import opened VaultStore
  import R = Retention

  datatype AppliedBy = User | Rollback | AutoRollback | Canonicalization

  datatype Snapshot = Snapshot(id: string, time: int, masked: Node, appliedBy: AppliedBy)

  // What the environment supplies: the secret field names, the uuids the generator
  // returns, the content hash and the printed timestamp.
  datatype Env = Env(fields: set<string>, uuid: nat -> string, sha: Node -> string, iso: int -> string)

  datatype Server = Server(live: Node, vault: VaultState, dir: seq<Snapshot>)

  ghost predicate Injective(sha: Node -> string) {
    forall m, n :: sha(m) == sha(n) ==> m == n
  }

  // ----- the snapshot directory -----

  function SnapshotId(env: Env, time: int, masked: Node): string {
    var hash := env.sha(masked);
    env.iso(time) + "-" + (if |hash| <= 8 then hash else hash[..8])
  }

  // Writing a snapshot replaces the files of an existing directory of that name.
  function Put(dir: seq<Snapshot>, s: Snapshot): (r: seq<Snapshot>) {
    if dir == [] then [s]
    else if dir[0].id == s.id then [s] + dir[1..]
    else [dir[0]] + Put(dir[1..], s)
  }

  function Find(dir: seq<Snapshot>, id: string): Option<Snapshot> {
    if dir == [] then None
    else if dir[0].id == id then Some(dir[0])
    else Find(dir[1..], id)
  }

  function Delete(dir: seq<Snapshot>, id: string): seq<Snapshot> {
    if dir == [] then []
    else if dir[0].id == id then Delete(dir[1..], id)
    else [dir[0]] + Delete(dir[1..], id)
  }

  function DeleteAll(dir: seq<Snapshot>, ids: seq<string>): seq<Snapshot>
    decreases |ids|
  {
    if ids == [] then dir else DeleteAll(Delete(dir, ids[0]), ids[1..])
  }

  // Newer first; equal timestamps by id.
  predicate Before(a: Snapshot, b: Snapshot) {
    a.time > b.time || (a.time == b.time && Less(a.id, b.id))
  }

  function Place(list: seq<Snapshot>, s: Snapshot): seq<Snapshot> {
    if list == [] then [s]
    else if Before(s, list[0]) then [s] + list
    else [list[0]] + Place(list[1..], s)
  }

  // The sorted listing.
  function Listing(dir: seq<Snapshot>): seq<Snapshot> {
    if dir == [] then [] else Place(Listing(dir[..|dir| - 1]), dir[|dir| - 1])
  }

  function Metas(list: seq<Snapshot>): (r: seq<R.Meta>)
    ensures |r| == |list|
  {
    if list == [] then [] else [R.Meta(list[0].id, Some(list[0].time))] + Metas(list[1..])
  }

  // The uuids used by some snapshot.
  function UsedUuids(dir: seq<Snapshot>): set<string> {
    if dir == [] then {} else Sentinels(dir[0].masked) + UsedUuids(dir[1..])
  }

  // ----- specification of the snapshot manager -----

  // The vault after masking a document.
  function AfterMask(env: Env, v: VaultState, n: Node): VaultState {
    VaultState(AddSecrets(v.entries, Secrets(n, env.fields), env.uuid, v.next, []), v.next + |Secrets(n, env.fields)|)
  }

  function MaskedWith(env: Env, v: VaultState, n: Node): Node {
    Masked(n, env.fields, env.uuid, v.next)
  }

  function MintedBy(env: Env, v: VaultState, n: Node): seq<string> {
    MintedSeq(env.uuid, v.next, |Secrets(n, env.fields)|)
  }

  function ToSet(ids: seq<string>): set<string> {
    set id | id in ids
  }

  // An auto-rollback snapshot equal to the newest one is not stored.
  predicate Deduped(env: Env, dir: seq<Snapshot>, masked: Node, appliedBy: AppliedBy) {
    appliedBy == AutoRollback && Listing(dir) != [] && env.sha(Listing(dir)[0].masked) == env.sha(masked)
  }

  function CreateSnapshot(env: Env, s: Server, raw: Node, appliedBy: AppliedBy, now: int): (Server, Option<Snapshot>) {
    var masked := MaskedWith(env, s.vault, raw);
    var v := AfterMask(env, s.vault, raw);
    var minted := MintedBy(env, s.vault, raw);
    if Deduped(env, s.dir, masked, appliedBy) then
      (s.(vault := v.(entries := v.entries - ToSet(minted))), None)
    else
      var snap := Snapshot(SnapshotId(env, now, masked), now, masked, appliedBy);
      (s.(vault := v.(entries := Referenced(v.entries, snap.id, minted)), dir := Put(s.dir, snap)), Some(snap))
  }

  function DropAll(entries: Entries, ids: seq<string>): Entries
    decreases |ids|
  {
    if ids == [] then entries else DropAll(DropReferences(entries, ids[0]), ids[1..])
  }

  function Removed(s: Server, cfg: R.Config, now: int): seq<string> {
    R.Decided(Metas(Listing(s.dir)), 0, cfg, now, false)
  }

  // Retention sweep and garbage collection.
  function Sweep(s: Server, cfg: R.Config, now: int): Server {
    var ids := Removed(s, cfg, now);
    var dir := DeleteAll(s.dir, ids);
    s.(vault := s.vault.(entries := Restrict(DropAll(s.vault.entries, ids), UsedUuids(dir))), dir := dir)
  }

  // Compare-and-write on the live configuration; None when it changed meanwhile.
  function VerifyAndWrite(env: Env, live: Node, content: Node, expectedHash: string): Option<Node> {
    if env.sha(live) == expectedHash then Some(content) else None
  }

  // ----- the objects -----

  class LocalFsTransport {
    const env: Env
    var live: Node
    var dir: seq<Snapshot>

    constructor (env: Env, live: Node)
      ensures this.env == env && this.live == live && dir == []
    {
      this.env := env;
      this.live := live;
      dir := [];
    }

    // One locked step: re-read, compare, replace.
    method WriteVerified(content: Node, expectedHash: string) returns (ok: bool)
      modifies `live
      ensures ok == VerifyAndWrite(env, old(live), content, expectedHash).Some?
      ensures live == if ok then content else old(live)
    {
      ok := env.sha(live) == expectedHash;
      if ok {
        live := content;
      }
    }

    method WriteSnapshot(s: Snapshot)
      modifies `dir
      ensures dir == Put(old(dir), s)
    {
      for i := 0 to |dir|
        invariant dir == old(dir) && Put(dir, s) == dir[..i] + Put(dir[i..], s)
      {
        if dir[i].id == s.id {
          dir := dir[..i] + [s] + dir[i + 1..];
          return;
        }
      }
      dir := dir + [s];
    }

    method ReadSnapshotsDir() returns (out: seq<Snapshot>)
      ensures out == Listing(dir)
    {
      out := [];
      for i := 0 to |dir|
        invariant out == Listing(dir[..i])
      {
        assert dir[..i + 1][..i] == dir[..i];
        out := Place(out, dir[i]);
      }
      assert dir[..|dir|] == dir;
    }

    method DeleteSnapshot(id: string)
      modifies `dir
      ensures dir == Delete(old(dir), id)
    {
      var kept := [];
      for i := 0 to |dir|
        invariant dir == old(dir) && kept + Delete(dir[i..], id) == Delete(dir, id)
      {
        if dir[i].id != id {
          kept := kept + [dir[i]];
        }
      }
      dir := kept;
    }
  }

  class SnapshotManager {
    const env: Env
    const transport: LocalFsTransport
    const vault: Vault

    constructor (env: Env, transport: LocalFsTransport, vault: Vault)
      requires transport.env == env && vault.fields == env.fields && vault.uuid == env.uuid
      ensures this.env == env && this.transport == transport && this.vault == vault && Wired()
    {
      this.env := env;
      this.transport := transport;
      this.vault := vault;
    }

    ghost predicate Wired() {
      transport.env == env && vault.fields == env.fields && vault.uuid == env.uuid
    }

    ghost function State(): Server
      reads transport, vault
    {
      Server(transport.live, vault.State(), transport.dir)
    }

    // Masks a fresh parse of a document; gives the masked document and the uuids minted.
    method MaskCopy(n: Node) returns (masked: Node, minted: seq<string>)
      requires Wired()
      modifies vault
      ensures masked == MaskedWith(env, old(vault.State()), n) && minted == MintedBy(env, old(vault.State()), n)
      ensures vault.State() == AfterMask(env, old(vault.State()), n)
    {
      var doc := Parse(n);
      minted := vault.MaskDoc(doc, None);
      masked := View(doc);
    }

    method Create(raw: Node, appliedBy: AppliedBy, now: int) returns (created: Option<Snapshot>)
      requires Wired()
      modifies transport`dir, vault
      ensures (State(), created) == CreateSnapshot(env, old(State()), raw, appliedBy, now)
    {
      var masked, minted := MaskCopy(raw);
      if appliedBy == AutoRollback {
        var existing := transport.ReadSnapshotsDir();
        if |existing| > 0 && env.sha(existing[0].masked) == env.sha(masked) {
          var _ := vault.GcSet(set id | id in minted);
          return None;
        }
      }
      var id := SnapshotId(env, now, masked);
      vault.AddReferences(id, minted);
      var snap := Snapshot(id, now, masked, appliedBy);
      transport.WriteSnapshot(snap);
      created := Some(snap);
    }

    method ApplyRetention(cfg: R.Config, now: int) returns (removed: seq<string>)
      requires Wired()
      modifies transport`dir, vault
      ensures State() == Sweep(old(State()), cfg, now)
      ensures removed == Removed(old(State()), cfg, now)
    {
      var list := transport.ReadSnapshotsDir();
      var _, remove := R.ApplyRetention(Metas(list), cfg, now);
      for i := 0 to |remove|
        invariant transport.live == old(transport.live) && vault.next == old(vault.next)
        invariant DeleteAll(transport.dir, remove[i..]) == DeleteAll(old(transport.dir), remove)
        invariant DropAll(vault.entries, remove[i..]) == DropAll(old(vault.entries), remove)
      {
        transport.DeleteSnapshot(remove[i]);
        vault.DropSnapshotReferences(remove[i]);
      }
      var live: set<string> := {};
      var dir := transport.dir;
      for i := 0 to |dir|
        invariant live + UsedUuids(dir[i..]) == UsedUuids(dir)
      {
        live := live + Sentinels(dir[i].masked);
      }
      var _ := vault.Gc(live);
      removed := remove;
    }
  }
}
