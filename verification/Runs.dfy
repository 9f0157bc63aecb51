// Runs of captures, deploys, rollbacks, retention sweeps and outside edits, and the
// invariant they keep.
module Runs {
  import opened Outcome
  import opened Yaml
  import opened Mask
  import opened MaskLaws
  import opened VaultStore
  import opened ViewSentinels
  import opened ViewFacts
  import opened Snapshots
  import opened SnapshotFacts
  import opened VaultFacts
  import opened Pipeline
  import R = Retention

  // ----- the invariant -----

  ghost predicate Sane(env: Env, s: Server) {
    Fresh(env.uuid, s.vault) && Plain(s.vault.entries) && UniqueIds(s.dir)
  }

  // Every sentinel of a snapshot is a key of the vault or foreign.
  ghost predicate AllResolve(dir: seq<Snapshot>, uuids: set<string>, foreign: set<string>) {
    forall x :: x in dir ==> Sentinels(x.masked) <= uuids + foreign && Stuck(x.masked) <= foreign
  }

  // The foreign uuids are those of sentinels that came in from outside.
  ghost predicate Inv(env: Env, s: Server, foreign: set<string>) {
    Sane(env, s) && AllResolve(s.dir, s.vault.entries.Keys, foreign) && Sentinels(s.live) <= foreign
  }

  // The invariant holds again, stored values are as they were, and no entry is gone.
  ghost predicate Keeps(env: Env, s: Server, t: Server, foreign: set<string>) {
    && Inv(env, t, foreign)
    && Later(env.uuid, s.vault, t.vault)
    && s.vault.entries.Keys <= t.vault.entries.Keys
  }

  lemma KeepsTrans(env: Env, s: Server, t: Server, u: Server, foreign: set<string>)
    requires Keeps(env, s, t, foreign) && Keeps(env, t, u, foreign)
    ensures Keeps(env, s, u, foreign)
  {
    hide Inv, Later;
    LaterTrans(env.uuid, s.vault, t.vault, u.vault);
  }

  lemma KeepsSame(env: Env, s: Server, foreign: set<string>)
    requires Inv(env, s, foreign)
    ensures Keeps(env, s, s, foreign)
  {
  }

  lemma KeepsInv(env: Env, s: Server, t: Server, foreign: set<string>)
    requires Keeps(env, s, t, foreign)
    ensures Inv(env, t, foreign) && Later(env.uuid, s.vault, t.vault)
  {
  }

  lemma InvMore(env: Env, s: Server, foreign: set<string>, more: set<string>)
    requires Inv(env, s, foreign) && foreign <= more
    ensures Inv(env, s, more)
  {
    hide Sane, Sentinels, Stuck;
    forall x | x in s.dir
      ensures Sentinels(x.masked) <= s.vault.entries.Keys + more && Stuck(x.masked) <= more
    {
    }
  }

  // With enough uuids taken to be foreign, nothing else is asked.
  lemma SaneInv(env: Env, s: Server, foreign: set<string>)
    requires Sane(env, s) && UsedUuids(s.dir) + Sentinels(s.live) <= foreign
    ensures Inv(env, s, foreign)
  {
    hide Sentinels, Stuck, Pending, Fresh, Plain, UniqueIds, UsedUuids;
    forall x | x in s.dir
      ensures Sentinels(x.masked) <= foreign && Stuck(x.masked) <= foreign
    {
      UsedUuidsInclude(s.dir, x);
      SentinelsSplit(x.masked);
    }
  }

  lemma LiveKeeps(env: Env, s: Server, n: Node, foreign: set<string>)
    requires Inv(env, s, foreign) && Sentinels(n) <= foreign
    ensures Keeps(env, s, s.(live := n), foreign)
  {
  }

  lemma MaskKeeps(env: Env, s: Server, n: Node, foreign: set<string>)
    requires Distinct(env.uuid) && Inv(env, s, foreign)
    ensures Keeps(env, s, s.(vault := AfterMask(env, s.vault, n)), foreign)
  {
    AfterMaskKeeps(env, s.vault, n);
    hide Fresh, Plain, Later, AfterMask, UniqueIds, Sentinels, Stuck;
  }

  // Entries with other bookkeeping, or fewer of them, that still cover the directory.
  lemma ShrunkKeeps(env: Env, s: Server, entries: Entries, dir: seq<Snapshot>, foreign: set<string>)
    requires Inv(env, s, foreign) && SameValues(s.vault.entries, entries)
    requires AllResolve(dir, entries.Keys, foreign) && UniqueIds(dir)
    ensures var t := s.(vault := s.vault.(entries := entries), dir := dir);
            Inv(env, t, foreign) && Later(env.uuid, s.vault, t.vault)
  {
    Shrunk(env.uuid, s.vault, entries);
  }

  // ----- creating a snapshot -----

  lemma ReferencedSame(entries: Entries, id: string, uuids: seq<string>)
    ensures Referenced(entries, id, uuids).Keys == entries.Keys
    ensures SameValues(entries, Referenced(entries, id, uuids))
  {
  }

  lemma PutResolves(dir: seq<Snapshot>, snap: Snapshot, uuids: set<string>, foreign: set<string>)
    requires AllResolve(dir, uuids, foreign)
    requires Sentinels(snap.masked) <= uuids + foreign && Stuck(snap.masked) <= foreign
    ensures AllResolve(Put(dir, snap), uuids, foreign)
  {
    hide Sentinels, Stuck;
    forall x | x in Put(dir, snap)
      ensures Sentinels(x.masked) <= uuids + foreign && Stuck(x.masked) <= foreign
    {
      PutMembers(dir, snap, x);
    }
  }

  // The sentinels of a new snapshot resolve exactly when those of the captured
  // document do: the minted ones always resolve.
  lemma NewSnapshotResolvesIff(env: Env, v: VaultState, raw: Node)
    ensures var uuids := AfterMask(env, v, raw).entries.Keys;
            && (Sentinels(MaskedWith(env, v, raw)) <= uuids <==> Sentinels(raw) <= uuids)
            && Sentinels(MaskedWith(env, v, raw)) - uuids == Sentinels(raw) - uuids
            && Stuck(MaskedWith(env, v, raw)) == Stuck(raw)
  {
    MaskedSentinels(raw, env.fields, env.uuid, v.next);
    AddSecretsKeys(v.entries, Secrets(raw, env.fields), env.uuid, v.next, []);
  }

  lemma MissingBelong(shown: set<string>, raw: set<string>, before: set<string>, uuids: set<string>, foreign: set<string>)
    requires shown - uuids == raw - uuids && before <= uuids && raw <= before + foreign
    ensures shown <= uuids + foreign
  {
    forall u | u in shown
      ensures u in uuids + foreign
    {
      assert u in uuids || u in raw - uuids;
    }
  }

  // Any document may be captured; what does not resolve in it is foreign.
  lemma CreateKeeps(env: Env, s: Server, raw: Node, appliedBy: AppliedBy, now: int, foreign: set<string>)
    requires Distinct(env.uuid) && Inv(env, s, foreign)
    requires Stuck(raw) <= foreign && Sentinels(raw) <= s.vault.entries.Keys + foreign
    ensures Keeps(env, s, CreateSnapshot(env, s, raw, appliedBy, now).0, foreign)
  {
    hide Sentinels, Stuck, Masked, Secrets, AddSecrets, Fresh, Plain, Later, Listing, UniqueIds, Put;
    var masked := MaskedWith(env, s.vault, raw);
    var v := AfterMask(env, s.vault, raw);
    var t := s.(vault := v);
    MaskKeeps(env, s, raw, foreign);
    AfterMaskKeeps(env, s.vault, raw);
    if Deduped(env, s.dir, masked, appliedBy) {
      UnmintRestores(env, s.vault, raw);
      assert v.entries - ToSet(MintedBy(env, s.vault, raw)) == s.vault.entries;
      ShrunkKeeps(env, t, s.vault.entries, s.dir, foreign) by {
        SubEntries(env, s.vault, raw);
      }
      LaterTrans(env.uuid, s.vault, v, v.(entries := s.vault.entries));
    } else {
      var snap := Snapshot(SnapshotId(env, now, masked), now, masked, appliedBy);
      var entries := Referenced(v.entries, snap.id, MintedBy(env, s.vault, raw));
      ReferencedSame(v.entries, snap.id, MintedBy(env, s.vault, raw));
      NewSnapshotResolvesIff(env, s.vault, raw);
      assert s.vault.entries.Keys <= v.entries.Keys;
      PutResolves(s.dir, snap, entries.Keys, foreign) by {
        MissingBelong(Sentinels(masked), Sentinels(raw), s.vault.entries.Keys, v.entries.Keys, foreign);
      }
      PutUnique(s.dir, snap);
      ShrunkKeeps(env, t, entries, Put(s.dir, snap), foreign);
      LaterTrans(env.uuid, s.vault, v, v.(entries := entries));
    }
  }

  lemma SubEntries(env: Env, v: VaultState, n: Node)
    requires Distinct(env.uuid) && Fresh(env.uuid, v)
    ensures SameValues(AfterMask(env, v, n).entries, v.entries)
  {
    UnmintRestores(env, v, n);
    var w := AfterMask(env, v, n).entries;
    assert v.entries == w - ToSet(MintedBy(env, v, n));
  }

  // ----- deduplication -----

  // No snapshot shows a uuid that is still to be drawn.
  ghost predicate Unshown(env: Env, s: Server) {
    forall x, i: nat :: x in s.dir && i >= s.vault.next ==> env.uuid(i) !in Sentinels(x.masked)
  }

  lemma ResolvedUnshown(env: Env, s: Server)
    requires Inv(env, s, {})
    ensures Unshown(env, s)
  {
    hide Sentinels, Stuck, Plain, UniqueIds;
  }

  // A deduplicated snapshot leaves the entries and the directory as they were.
  lemma DedupeLeavesVault(env: Env, s: Server, raw: Node, appliedBy: AppliedBy, now: int)
    requires Distinct(env.uuid) && Fresh(env.uuid, s.vault)
    requires CreateSnapshot(env, s, raw, appliedBy, now).1.None?
    ensures var t := CreateSnapshot(env, s, raw, appliedBy, now).0;
            && t.vault.entries == s.vault.entries && t.dir == s.dir && t.live == s.live
  {
    UnmintRestores(env, s.vault, raw);
  }

  lemma NewestShows(env: Env, s: Server, raw: Node, appliedBy: AppliedBy)
    requires Injective(env.sha) && Deduped(env, s.dir, MaskedWith(env, s.vault, raw), appliedBy)
    requires Secrets(raw, env.fields) != []
    ensures !Unshown(env, s)
  {
    hide Masked, Secrets, AddSecrets, Sentinels, Put;
    var newest := Listing(s.dir)[0];
    ListingMembers(s.dir, newest);
    MaskedSentinels(raw, env.fields, env.uuid, s.vault.next);
    assert env.uuid(s.vault.next) in Minted(env.uuid, s.vault.next, |Secrets(raw, env.fields)|);
    assert newest.masked == MaskedWith(env, s.vault, raw);
  }

  // It happens exactly for an auto-rollback of a document without secrets to mask that
  // equals the newest snapshot.
  lemma DedupedIff(env: Env, s: Server, raw: Node, appliedBy: AppliedBy, now: int)
    requires Injective(env.sha) && Unshown(env, s)
    ensures CreateSnapshot(env, s, raw, appliedBy, now).1.None? <==>
            && appliedBy == AutoRollback && Secrets(raw, env.fields) == []
            && Listing(s.dir) != [] && Listing(s.dir)[0].masked == raw
  {
    hide Masked, Secrets, AddSecrets, Sentinels, Put;
    var masked := MaskedWith(env, s.vault, raw);
    if Secrets(raw, env.fields) == [] {
      NothingToMask(raw, env.fields, env.uuid, s.vault.next);
    } else if Deduped(env, s.dir, masked, appliedBy) {
      NewestShows(env, s, raw, appliedBy);
    }
  }

  // A document with a secret is stored again each time, however often it is captured.
  lemma SecretStoredAgain(env: Env, s: Server, now: int, later: int)
    requires Distinct(env.uuid) && Injective(env.sha) && Inv(env, s, {}) && env.fields == DEFAULT_SECRET_FIELDS
    ensures var raw := Map([Pair(Leaf(Str("password")), Leaf(Str("pw")))]);
            var t := CreateSnapshot(env, s, raw, AutoRollback, now).0;
            CreateSnapshot(env, t, raw, AutoRollback, later).1.Some?
  {
    var raw := OneSecret(env.fields);
    hide Sentinels, Secrets, CreateSnapshot, Inv;
    SentinelsSplit(raw);
    CreateKeeps(env, s, raw, AutoRollback, now, {});
    var t := CreateSnapshot(env, s, raw, AutoRollback, now).0;
    KeepsInv(env, s, t, {});
    ResolvedUnshown(env, t);
    DedupedIff(env, t, raw, AutoRollback, later);
  }

  // A document with one secret.
  lemma OneSecret(fields: set<string>) returns (raw: Node)
    requires fields == DEFAULT_SECRET_FIELDS
    ensures raw == Map([Pair(Leaf(Str("password")), Leaf(Str("pw")))])
    ensures Secrets(raw, fields) == ["pw"] && Sentinels(raw) == {}
  {
    var pair := Pair(Leaf(Str("password")), Leaf(Str("pw")));
    raw := Map([pair]);
    assert [pair][1..] == [];
    assert SecretOf(pair, fields) == Some("pw");
    assert PairSecrets([pair], fields) == SecretsOf(pair, fields) + PairSecrets([], fields);
    assert PairSentinels([pair]) == SentinelsOf(pair) + PairSentinels([]);
    assert !IsSentinel("pw");
    assert SentinelsOf(pair) == {};
  }

  // ----- sweeping -----

  lemma RemainingResolve(s: Server, ids: seq<string>, foreign: set<string>)
    requires AllResolve(s.dir, s.vault.entries.Keys, foreign)
    ensures var dir := DeleteAll(s.dir, ids);
            var entries := Restrict(DropAll(s.vault.entries, ids), UsedUuids(dir));
            entries.Keys == s.vault.entries.Keys * UsedUuids(dir) && AllResolve(dir, entries.Keys, foreign)
  {
    hide Sentinels, Stuck;
    var dir := DeleteAll(s.dir, ids);
    DropAllSame(s.vault.entries, ids);
    forall x | x in dir
      ensures x in s.dir && Sentinels(x.masked) <= UsedUuids(dir)
    {
      DeleteAllMembers(s.dir, ids, x);
      UsedUuidsInclude(dir, x);
    }
  }

  lemma SweepKeeps(env: Env, s: Server, cfg: R.Config, now: int, foreign: set<string>)
    requires Inv(env, s, foreign)
    ensures Inv(env, Sweep(s, cfg, now), foreign) && Later(env.uuid, s.vault, Sweep(s, cfg, now).vault)
  {
    hide Fresh, Plain, Later, AllResolve;
    var ids := Removed(s, cfg, now);
    var dir := DeleteAll(s.dir, ids);
    var entries := Restrict(DropAll(s.vault.entries, ids), UsedUuids(dir));
    RemainingResolve(s, ids, foreign);
    DropAllSame(s.vault.entries, ids);
    DeleteAllUnique(s.dir, ids);
    ShrunkKeeps(env, s, entries, dir, foreign);
  }

  // Right after a sweep the vault holds exactly the entries that a survivor uses, and the
  // survivors are the snapshots the retention decision did not remove.
  lemma SweepIsExact(s: Server, cfg: R.Config, now: int)
    ensures var t := Sweep(s, cfg, now);
            && t.vault.entries.Keys == s.vault.entries.Keys * UsedUuids(t.dir)
            && (forall x :: x in t.dir <==> x in s.dir && x.id !in Removed(s, cfg, now))
            && (AllResolve(s.dir, s.vault.entries.Keys, {}) ==> t.vault.entries.Keys == UsedUuids(t.dir))
  {
    hide Sentinels, Stuck;
    var ids := Removed(s, cfg, now);
    DropAllSame(s.vault.entries, ids);
    forall x
      ensures x in Sweep(s, cfg, now).dir <==> x in s.dir && x.id !in ids
    {
      DeleteAllMembers(s.dir, ids, x);
    }
    if AllResolve(s.dir, s.vault.entries.Keys, {}) {
      forall u | u in UsedUuids(DeleteAll(s.dir, ids))
        ensures u in s.vault.entries
      {
        UsedUuidsMeaning(DeleteAll(s.dir, ids), u);
        var x :| x in DeleteAll(s.dir, ids) && u in Sentinels(x.masked);
        DeleteAllMembers(s.dir, ids, x);
      }
    }
  }

  // ----- deploying -----

  lemma ValuesPlain(entries: Entries)
    ensures Plain(entries) ==> PlainValues(ValuesOf(entries))
    ensures ValuesOf(entries).Keys == entries.Keys
  {
  }

  // The sentinels of a draft that unmasking passes over.
  function StuckIn(draft: Option<Node>): set<string> {
    if draft.Some? then Stuck(draft.value) else {}
  }

  lemma CreateKeepsLive(env: Env, s: Server, raw: Node, appliedBy: AppliedBy, now: int)
    ensures CreateSnapshot(env, s, raw, appliedBy, now).0.live == s.live
  {
  }

  lemma StagedKeeps(env: Env, s: Server, draft: Option<Node>, appliedBy: AppliedBy, a: Answers, foreign: set<string>)
    requires Distinct(env.uuid) && Inv(env, s, foreign) && StuckIn(draft) <= foreign
    ensures var staged := Staged(env, s, draft, appliedBy, a);
            && Keeps(env, s, staged.0, foreign) && staged.0.live == s.live
            && (staged.1.Ok? ==> Pending(staged.1.value.content) == {} && Sentinels(staged.1.value.content) <= foreign)
  {
    hide AfterMask, Later, CreateSnapshot, ResolveView, Unmask, Sentinels, Stuck, Pending;
    KeepsSame(env, s, foreign);
    if draft.Some? {
      var resolved := ResolveView(draft.value, s.live);
      var s0 := s.(vault := AfterMask(env, s.vault, s.live));
      MaskKeeps(env, s, s.live, foreign);
      MaskKeeps(env, s0, resolved, foreign);
      var s1 := AfterDiff(env, s, draft.value);
      KeepsTrans(env, s, s0, s1, foreign);
      SentinelsSplit(s.live);
      CreateKeeps(env, s1, s.live, appliedBy, a.now, foreign);
      var s2 := CreateSnapshot(env, s1, s.live, appliedBy, a.now).0;
      KeepsTrans(env, s, s1, s2, foreign);
      CreateKeepsLive(env, s1, s.live, appliedBy, a.now);
      ContentSentinels(draft.value, s.live, s2.vault.entries);
    }
  }

  // What is written holds no sentinel but those of the draft that unmasking passes over.
  lemma ContentSentinels(draft: Node, live: Node, entries: Entries)
    requires Plain(entries)
    ensures var content := Unmask(ResolveView(draft, live), ValuesOf(entries));
            && (content.Ok? <==> Pending(ResolveView(draft, live)) <= entries.Keys)
            && (content.Ok? ==> Pending(content.value) == {} && Sentinels(content.value) == Stuck(draft))
  {
    hide Unmask, ResolveView, Sentinels, Stuck, Pending;
    var resolved := ResolveView(draft, live);
    ValuesPlain(entries);
    ResolveViewMarks(draft, live);
    UnmaskResolves(resolved, ValuesOf(entries));
    if Unmask(resolved, ValuesOf(entries)).Ok? {
      SentinelsSplit(Unmask(resolved, ValuesOf(entries)).value);
    }
  }

  lemma DeployKeeps(env: Env, st: Settings, s: Server, draft: Option<Node>, appliedBy: AppliedBy, a: Answers, nested: Answers, foreign: set<string>)
    requires Distinct(env.uuid) && Inv(env, s, foreign) && StuckIn(draft) <= foreign
    ensures Keeps(env, s, Deploy(env, st, s, draft, appliedBy, a, nested).server, foreign)
    decreases if appliedBy == User then 2 else 0
  {
    hide Inv, Keeps, Staged, Settled, Sentinels, Pending, StuckIn;
    StagedKeeps(env, s, draft, appliedBy, a, foreign);
    var staged := Staged(env, s, draft, appliedBy, a);
    if staged.1.Ok? {
      KeepsInv(env, s, staged.0, foreign);
      var t := staged.0.(live := staged.1.value.content);
      LiveKeeps(env, staged.0, staged.1.value.content, foreign);
      KeepsInv(env, staged.0, t, foreign);
      SettledKeeps(env, st, t, staged.1.value.snapshotId, appliedBy, a, nested, foreign);
      KeepsTrans(env, s, staged.0, t, foreign);
      KeepsTrans(env, s, t, Settled(env, st, t, staged.1.value.snapshotId, appliedBy, a, nested).server, foreign);
    }
  }

  lemma SettledKeeps(env: Env, st: Settings, s: Server, id: string, appliedBy: AppliedBy, a: Answers, nested: Answers, foreign: set<string>)
    requires Distinct(env.uuid) && Inv(env, s, foreign)
    ensures Keeps(env, s, Settled(env, st, s, id, appliedBy, a, nested).server, foreign)
    decreases if appliedBy == User then 2 else 0, 0
  {
    KeepsSame(env, s, foreign);
    hide Inv, Keeps, ApplyRollback;
    if ShouldRollBack(st, appliedBy, FailedPhase(a.health)) {
      RollbackKeeps(env, st, s, id, true, 0, nested, nested, foreign);
    }
  }

  lemma RollbackKeeps(env: Env, st: Settings, s: Server, id: string, auto: bool, depth: nat, a: Answers, nested: Answers, foreign: set<string>)
    requires Distinct(env.uuid) && Inv(env, s, foreign)
    ensures Keeps(env, s, ApplyRollback(env, st, s, id, auto, depth, a, nested).0.server, foreign)
    decreases 1
  {
    KeepsSame(env, s, foreign);
    hide Keeps, Deploy, Unmask, Sentinels, Stuck, Pending, Fresh;
    var snap := Find(s.dir, id);
    FindMember(s.dir, id);
    if snap.Some? {
      var draft := Unmask(snap.value.masked, ValuesOf(s.vault.entries));
      if draft.Ok? {
        ValuesPlain(s.vault.entries);
        UnmaskResolves(snap.value.masked, ValuesOf(s.vault.entries));
        DeployKeeps(env, st, s, Some(draft.value), if auto then AutoRollback else Rollback, a, nested, foreign);
      }
    }
  }

  // ----- runs -----

  datatype Event =
    | Capture(raw: Node, appliedBy: AppliedBy, now: int) // a snapshot outside a deploy
    | MaskDraft(document: Node)
    | DeployDraft(draft: Option<Node>, appliedBy: AppliedBy, answers: Answers, nested: Answers)
    | RollBackTo(id: string, answers: Answers, nested: Answers)
    | Retain(cfg: R.Config, now: int)
    | EditLive(content: Node)

  function After(env: Env, st: Settings, s: Server, e: Event): Server {
    match e
    case Capture(raw, appliedBy, now) => CreateSnapshot(env, s, raw, appliedBy, now).0
    case MaskDraft(document) => s.(vault := AfterMask(env, s.vault, document))
    case DeployDraft(draft, appliedBy, a, nested) => Deploy(env, st, s, draft, appliedBy, a, nested).server
    case RollBackTo(id, a, nested) => ApplyRollback(env, st, s, id, false, 0, a, nested).0.server
    case Retain(cfg, now) => Sweep(s, cfg, now)
    case EditLive(content) => s.(live := content)
  }

  function AfterAll(env: Env, st: Settings, s: Server, events: seq<Event>): Server
    decreases |events|
  {
    if events == [] then s else AfterAll(env, st, After(env, st, s, events[0]), events[1..])
  }

  // The uuids an event brings in from outside: the sentinels of an edit of the live
  // document, those of a captured document that do not resolve, and those of a draft or
  // a captured document that stand beside a key that is not a scalar.
  function Brought(s: Server, e: Event): set<string> {
    match e
    case Capture(raw, _, _) => Stuck(raw) + (Sentinels(raw) - s.vault.entries.Keys)
    case DeployDraft(draft, _, _, _) => StuckIn(draft)
    case EditLive(content) => Sentinels(content)
    case _ => {}
  }

  function BroughtIn(env: Env, st: Settings, s: Server, events: seq<Event>): set<string>
    decreases |events|
  {
    if events == [] then {}
    else Brought(s, events[0]) + BroughtIn(env, st, After(env, st, s, events[0]), events[1..])
  }

  predicate IsRetain(e: Event) {
    e.Retain?
  }

  lemma EventKeeps(env: Env, st: Settings, s: Server, e: Event, foreign: set<string>)
    requires Distinct(env.uuid) && Inv(env, s, foreign) && Brought(s, e) <= foreign
    ensures var t := After(env, st, s, e);
            && Inv(env, t, foreign) && Later(env.uuid, s.vault, t.vault)
            && (IsRetain(e) || s.vault.entries.Keys <= t.vault.entries.Keys)
  {
    hide Inv, Later, CreateSnapshot, AfterMask, Deploy, ApplyRollback, Sweep, Sentinels, Stuck;
    match e
    case Capture(raw, appliedBy, now) => CreateKeeps(env, s, raw, appliedBy, now, foreign);
    case MaskDraft(document) => MaskKeeps(env, s, document, foreign);
    case DeployDraft(draft, appliedBy, a, nested) => DeployKeeps(env, st, s, draft, appliedBy, a, nested, foreign);
    case RollBackTo(id, a, nested) => RollbackKeeps(env, st, s, id, false, 0, a, nested, foreign);
    case Retain(cfg, now) => SweepKeeps(env, s, cfg, now, foreign);
    case EditLive(content) => LiveKeeps(env, s, content, foreign);
  }

  lemma LaterSame(uuid: nat -> string, v: VaultState)
    ensures Later(uuid, v, v)
  {
  }

  // Over every run, with any documents: every sentinel of every stored snapshot is a key
  // of the vault unless it came in from outside, and no entry that is still there has
  // changed its value.
  lemma {:induction false} RunKeeps(env: Env, st: Settings, s: Server, events: seq<Event>, foreign: set<string>)
    requires Distinct(env.uuid) && Inv(env, s, foreign)
    ensures var t := AfterAll(env, st, s, events);
            Inv(env, t, foreign + BroughtIn(env, st, s, events)) && Later(env.uuid, s.vault, t.vault)
    decreases |events|
  {
    hide Inv, Later, After, Brought;
    if events == [] {
      LaterSame(env.uuid, s.vault);
      assert foreign + BroughtIn(env, st, s, events) == foreign;
    } else {
      var e := events[0];
      var t, more := After(env, st, s, e), foreign + Brought(s, e);
      InvMore(env, s, foreign, more);
      EventKeeps(env, st, s, e, more);
      RunKeeps(env, st, t, events[1..], more);
      LaterTrans(env.uuid, s.vault, t.vault, AfterAll(env, st, t, events[1..]).vault);
      assert more + BroughtIn(env, st, t, events[1..]) == foreign + BroughtIn(env, st, s, events);
    }
  }

  // From an empty server on: what does not resolve in a stored snapshot came in from
  // outside; when nothing did, every stored snapshot unmasks, and leaves no sentinel.
  lemma SnapshotsAlwaysResolve(env: Env, st: Settings, live: Node, events: seq<Event>, x: Snapshot)
    requires Distinct(env.uuid)
    requires x in AfterAll(env, st, Server(live, VaultState(map[], 0), []), events).dir
    ensures var s0 := Server(live, VaultState(map[], 0), []);
            var s := AfterAll(env, st, s0, events);
            var unmasked := Unmask(x.masked, ValuesOf(s.vault.entries));
            && Sentinels(x.masked) - s.vault.entries.Keys <= Sentinels(live) + BroughtIn(env, st, s0, events)
            && (unmasked.Ok? <==> Pending(x.masked) <= s.vault.entries.Keys)
            && (Sentinels(live) + BroughtIn(env, st, s0, events) == {} ==> unmasked.Ok? && Sentinels(unmasked.value) == {})
  {
    hide Unmask, Sentinels, Stuck, Pending;
    var s0 := Server(live, VaultState(map[], 0), []);
    RunKeeps(env, st, s0, events, Sentinels(live));
    var s := AfterAll(env, st, s0, events);
    ValuesPlain(s.vault.entries);
    UnmaskResolves(x.masked, ValuesOf(s.vault.entries));
    SentinelsSplit(x.masked);
    if Unmask(x.masked, ValuesOf(s.vault.entries)).Ok? {
      SentinelsSplit(Unmask(x.masked, ValuesOf(s.vault.entries)).value);
    }
  }

  // ----- surviving -----

  // The snapshot is in the directory throughout the run.
  ghost predicate Survives(env: Env, st: Settings, s: Server, events: seq<Event>, x: Snapshot)
    decreases |events|
  {
    x in s.dir && (events != [] ==> Survives(env, st, After(env, st, s, events[0]), events[1..], x))
  }

  lemma EventRetains(env: Env, st: Settings, s: Server, e: Event, x: Snapshot, foreign: set<string>)
    requires Distinct(env.uuid) && Inv(env, s, foreign) && Brought(s, e) <= foreign
    requires x in After(env, st, s, e).dir
    ensures Sentinels(x.masked) * s.vault.entries.Keys <= After(env, st, s, e).vault.entries.Keys
  {
    hide Inv, CreateSnapshot, AfterMask, Deploy, ApplyRollback, Sentinels, Stuck, Brought;
    EventKeeps(env, st, s, e, foreign);
    if e.Retain? {
      SweepIsExact(s, e.cfg, e.now);
      UsedUuidsInclude(Sweep(s, e.cfg, e.now).dir, x);
    }
  }

  // A sentinel of a surviving snapshot that resolves goes on to resolve, to the same
  // value, whatever happens.
  lemma {:induction false} StaysResolved(env: Env, st: Settings, s: Server, events: seq<Event>, x: Snapshot, foreign: set<string>)
    requires Distinct(env.uuid) && Inv(env, s, foreign) && Survives(env, st, s, events, x)
    ensures var t := AfterAll(env, st, s, events);
            && x in t.dir
            && forall u :: u in Sentinels(x.masked) && u in s.vault.entries ==>
                 u in t.vault.entries && t.vault.entries[u].value == s.vault.entries[u].value
    decreases |events|
  {
    hide Inv, After, Brought, Sentinels;
    if events != [] {
      var e := events[0];
      var t, more := After(env, st, s, e), foreign + Brought(s, e);
      InvMore(env, s, foreign, more);
      EventKeeps(env, st, s, e, more);
      EventRetains(env, st, s, e, x, more) by {
        assert Survives(env, st, t, events[1..], x);
      }
      StaysResolved(env, st, t, events[1..], x, more);
      InvFresh(env, s, foreign);
      forall u | u in Sentinels(x.masked) && u in s.vault.entries
        ensures u in t.vault.entries && t.vault.entries[u].value == s.vault.entries[u].value
      {
        ValueKept(env.uuid, s.vault, t.vault, u);
      }
    }
  }

  lemma InvFresh(env: Env, s: Server, foreign: set<string>)
    requires Inv(env, s, foreign)
    ensures Fresh(env.uuid, s.vault) && Plain(s.vault.entries) && UniqueIds(s.dir)
  {
  }
}
