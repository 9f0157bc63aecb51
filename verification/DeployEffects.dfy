// What a run leaves behind: its error, the snapshot directory and the vault, for every
// draft and every outcome of the steps.
module DeployEffects {
  import opened Outcome
  import opened Yaml
  import opened Mask
  import opened MaskLaws
  import opened VaultStore
  import opened ViewSentinels
  import opened Snapshots
  import opened SnapshotFacts
  import opened VaultFacts
  import opened Pipeline
  import opened Runs
  import opened Deploys

  // ----- a snapshot -----

  lemma {:induction false} AddSecretsNew(entries: Entries, secrets: seq<string>, uuid: nat -> string, k: nat, refs: seq<string>, i: nat)
    requires Distinct(uuid) && i < |secrets|
    ensures var e := AddSecrets(entries, secrets, uuid, k, refs); uuid(k + i) in e && e[uuid(k + i)] == Entry(secrets[i], refs)
    decreases |secrets|
  {
    var e := entries[uuid(k) := Entry(secrets[0], refs)];
    if i == 0 {
      NotMinted(uuid, k + 1, |secrets| - 1, k);
      AddSecretsOld(e, secrets[1..], uuid, k + 1, refs, uuid(k));
    } else {
      AddSecretsNew(e, secrets[1..], uuid, k + 1, refs, i - 1);
    }
  }

  lemma {:induction false} InMintedSeq(uuid: nat -> string, k: nat, count: nat, i: nat)
    requires i < count
    ensures uuid(k + i) in MintedSeq(uuid, k, count)
    decreases count
  {
    if i > 0 {
      InMintedSeq(uuid, k + 1, count - 1, i - 1);
    }
  }

  // Old entries are as they were, and the i-th secret stands under the i-th new uuid, with
  // the given references; there is nothing else.
  ghost predicate Stores(uuid: nat -> string, v: VaultState, secrets: seq<string>, refs: seq<string>, w: VaultState) {
    && w.next == v.next + |secrets|
    && w.entries.Keys == v.entries.Keys + Minted(uuid, v.next, |secrets|)
    && (forall u :: u in v.entries ==> u in w.entries && w.entries[u] == v.entries[u])
    && forall i: nat :: i < |secrets| ==> StoredUnder(w.entries, uuid(v.next + i), secrets[i], refs)
  }

  predicate StoredUnder(entries: Entries, u: string, secret: string, refs: seq<string>) {
    u in entries && entries[u] == Entry(secret, refs)
  }

  lemma MaskStores(env: Env, v: VaultState, n: Node)
    requires Distinct(env.uuid) && Fresh(env.uuid, v)
    ensures Stores(env.uuid, v, Secrets(n, env.fields), [], AfterMask(env, v, n))
  {
    hide Secrets, AddSecrets, Minted;
    var secrets := Secrets(n, env.fields);
    var w := AfterMask(env, v, n);
    AddSecretsKeys(v.entries, secrets, env.uuid, v.next, []);
    forall u | u in v.entries
      ensures u in w.entries && w.entries[u] == v.entries[u]
    {
      NotAmongMinted(env, v, |secrets|, u);
      AddSecretsOld(v.entries, secrets, env.uuid, v.next, [], u);
    }
    forall i: nat | i < |secrets|
      ensures StoredUnder(w.entries, env.uuid(v.next + i), secrets[i], [])
    {
      AddSecretsNew(v.entries, secrets, env.uuid, v.next, [], i);
    }
    assert w.next == v.next + |secrets|;
  }

  lemma NotAmongMinted(env: Env, v: VaultState, count: nat, u: string)
    requires Fresh(env.uuid, v) && u in v.entries
    ensures u !in Minted(env.uuid, v.next, count)
  {
    if u in Minted(env.uuid, v.next, count) {
      var i := MintedIndex(env.uuid, v.next, count, u);
    }
  }

  lemma ReferencedOld(env: Env, v: VaultState, count: nat, entries: Entries, id: string, u: string)
    requires Fresh(env.uuid, v) && u in v.entries && u in entries
    ensures var after := Referenced(entries, id, MintedSeq(env.uuid, v.next, count)); u in after && after[u] == entries[u]
  {
    hide Minted, MintedSeq;
    NotAmongMinted(env, v, count, u);
    MintedSeqSet(env.uuid, v.next, count);
    assert u !in ToSet(MintedSeq(env.uuid, v.next, count));
  }

  lemma ReferencedNew(env: Env, v: VaultState, secrets: seq<string>, entries: Entries, id: string, i: nat)
    requires i < |secrets| && StoredUnder(entries, env.uuid(v.next + i), secrets[i], [])
    ensures StoredUnder(Referenced(entries, id, MintedSeq(env.uuid, v.next, |secrets|)), env.uuid(v.next + i), secrets[i], [id])
  {
    hide MintedSeq;
    InMintedSeq(env.uuid, v.next, |secrets|, i);
    assert Entry(secrets[i], []).referencedBy + [id] == [id];
  }

  lemma ReferencedStores(env: Env, v: VaultState, secrets: seq<string>, w: VaultState, id: string)
    requires Distinct(env.uuid) && Fresh(env.uuid, v) && Stores(env.uuid, v, secrets, [], w)
    ensures Stores(env.uuid, v, secrets, [id], w.(entries := Referenced(w.entries, id, MintedSeq(env.uuid, v.next, |secrets|))))
  {
    hide Minted, MintedSeq, Referenced, Fresh, Distinct, StoredUnder;
    var x := w.(entries := Referenced(w.entries, id, MintedSeq(env.uuid, v.next, |secrets|)));
    ReferencedAt(w.entries, id, MintedSeq(env.uuid, v.next, |secrets|));
    forall u | u in v.entries
      ensures u in x.entries && x.entries[u] == v.entries[u]
    {
      ReferencedOld(env, v, |secrets|, w.entries, id, u);
    }
    forall i: nat | i < |secrets|
      ensures StoredUnder(x.entries, env.uuid(v.next + i), secrets[i], [id])
    {
      ReferencedNew(env, v, secrets, w.entries, id, i);
    }
  }

  lemma ReferencedAt(entries: Entries, id: string, uuids: seq<string>)
    ensures Referenced(entries, id, uuids).Keys == entries.Keys
  {
  }

  // The directory with one more snapshot; one of the same id is replaced.
  ghost predicate AddedTo(dir: seq<Snapshot>, snap: Snapshot, after: seq<Snapshot>) {
    && (forall x :: x in after <==> x == snap || (x in dir && x.id != snap.id))
    && ((forall x :: x in dir ==> x.id != snap.id) ==> after == dir + [snap])
  }

  lemma {:induction false} PutAdds(dir: seq<Snapshot>, snap: Snapshot)
    requires UniqueIds(dir)
    ensures AddedTo(dir, snap, Put(dir, snap))
  {
    if dir != [] {
      assert dir == [dir[0]] + dir[1..];
      if dir[0].id != snap.id {
        PutAdds(dir[1..], snap);
      }
    }
  }

  // The id is the printed time and eight characters of the hash of the masked document.
  ghost predicate IsSnapshot(env: Env, snap: Snapshot, document: Node, k: nat, appliedBy: AppliedBy, now: int) {
    && snap.masked == Masked(document, env.fields, env.uuid, k) && snap.time == now && snap.appliedBy == appliedBy
    && exists short, rest :: env.sha(snap.masked) == short + rest && (rest == "" || |short| == 8) && |short| <= 8
                             && snap.id == env.iso(now) + "-" + short
  }

  lemma IdOf(env: Env, document: Node, k: nat, appliedBy: AppliedBy, now: int)
    ensures var masked := Masked(document, env.fields, env.uuid, k);
            IsSnapshot(env, Snapshot(SnapshotId(env, now, masked), now, masked, appliedBy), document, k, appliedBy, now)
  {
    var hash := env.sha(Masked(document, env.fields, env.uuid, k));
    if |hash| <= 8 {
      assert hash == hash + "";
    } else {
      assert hash == hash[..8] + hash[8..];
    }
  }

  // Capturing a document: an auto-rollback of what the newest snapshot shows stores
  // nothing; otherwise one snapshot is added, and the entries of its secrets name it.
  lemma SnapshotCreated(env: Env, s: Server, raw: Node, appliedBy: AppliedBy, now: int)
    requires Distinct(env.uuid) && Sane(env, s)
    ensures var created := CreateSnapshot(env, s, raw, appliedBy, now);
            var t, secrets := created.0, Secrets(raw, env.fields);
            && t.live == s.live && t.vault.next == s.vault.next + |secrets|
            && (created.1.None? <==>
                  appliedBy == AutoRollback && Listing(s.dir) != []
                  && env.sha(Listing(s.dir)[0].masked) == env.sha(Masked(raw, env.fields, env.uuid, s.vault.next)))
            && (created.1.None? ==> t.vault.entries == s.vault.entries && t.dir == s.dir)
            && (created.1.Some? ==>
                  && IsSnapshot(env, created.1.value, raw, s.vault.next, appliedBy, now)
                  && AddedTo(s.dir, created.1.value, t.dir)
                  && Stores(env.uuid, s.vault, secrets, [created.1.value.id], t.vault))
  {
    hide Masked, Secrets, AddSecrets, Put, Stores, IsSnapshot, AddedTo, UniqueIds, Fresh, Listing, MintedSeq, SnapshotId;
    var masked, v := MaskedWith(env, s.vault, raw), AfterMask(env, s.vault, raw);
    MaskStores(env, s.vault, raw);
    UnmintRestores(env, s.vault, raw);
    IdOf(env, raw, s.vault.next, appliedBy, now);
    var snap := Snapshot(SnapshotId(env, now, masked), now, masked, appliedBy);
    PutAdds(s.dir, snap);
    ReferencedStores(env, s.vault, Secrets(raw, env.fields), v, snap.id);
  }

  // ----- a run up to its write -----

  // The server once both documents are masked for the diff.
  ghost predicate Compared(env: Env, s: Server, draft: Node, t: Server) {
    && t.live == s.live && t.dir == s.dir
    && exists v :: Stores(env.uuid, s.vault, Secrets(s.live, env.fields), [], v)
                   && Stores(env.uuid, v, Secrets(ResolveView(draft, s.live), env.fields), [], t.vault)
  }

  lemma DiffCompares(env: Env, s: Server, draft: Node)
    requires Distinct(env.uuid) && Sane(env, s)
    ensures Compared(env, s, draft, AfterDiff(env, s, draft)) && Sane(env, AfterDiff(env, s, draft))
  {
    hide AfterMask, Stores, ResolveView, Secrets, UniqueIds, Fresh, Plain;
    var v := AfterMask(env, s.vault, s.live);
    MaskStores(env, s.vault, s.live);
    AfterMaskKeeps(env, s.vault, s.live);
    MaskStores(env, v, ResolveView(draft, s.live));
    AfterMaskKeeps(env, v, ResolveView(draft, s.live));
  }

  // A draft that does not parse, or fails lint, is refused with that error. Nothing is
  // written, no snapshot is taken, and the vault has only been used for the diff.
  lemma LintRefuses(env: Env, st: Settings, s: Server, draft: Option<Node>, appliedBy: AppliedBy, a: Answers, nested: Answers)
    requires draft.None? || !a.lintOk
    ensures var r := Deploy(env, st, s, draft, appliedBy, a, nested);
            && r.result == Err(LintBlocked) && r.writes == [] && r.nested == 0
            && r.server.live == s.live && r.server.dir == s.dir
            && (draft.None? ==> r.server == s)
            && (draft.Some? && Distinct(env.uuid) && Sane(env, s) ==> Compared(env, s, draft.value, r.server))
  {
    hide AfterDiff, Compared, Sane;
    if draft.Some? {
      SameDir(env, s, draft.value);
      if Distinct(env.uuid) && Sane(env, s) {
        DiffCompares(env, s, draft.value);
      }
    }
  }

  lemma SameDir(env: Env, s: Server, draft: Node)
    ensures AfterDiff(env, s, draft).dir == s.dir && AfterDiff(env, s, draft).live == s.live
  {
  }

  // The error of every run.
  lemma ErrorOfRun(env: Env, st: Settings, s: Server, draft: Option<Node>, appliedBy: AppliedBy, a: Answers, nested: Answers)
    ensures var r := Deploy(env, st, s, draft, appliedBy, a, nested);
            if draft.None? || !a.lintOk then r.result == Err(LintBlocked)
            else if !a.preflightOk then r.result == Err(PreflightFailed)
            else
              var w := ResolvedDraft(env, s, draft, appliedBy, a);
              if w.Err? then r.result == Err(VaultMissingSecret(w.error))
              else if !a.reloadOk then r.result == Err(ReloadFailed)
              else if st.healthcheck && !a.health.Healthy? then
                && r.result.Err? && r.result.error.HealthcheckFailed?
                && r.result.error.phase == (if a.health.Threw? then Some(1) else a.health.phase)
                && (r.nested == 0 ==> r.result.error.rolledBackTo.None? && r.result.error.rollbackError.None?)
                && (r.nested == 1 ==> (r.result.error.rolledBackTo.None? <==> r.result.error.rollbackError.Some?))
              else r.result.Ok?
  {
    hide Staged, ResolvedDraft, ApplyRollback;
    StagedFacts(env, s, draft, appliedBy, a);
    if draft.None? || !a.lintOk {
      LintRefuses(env, st, s, draft, appliedBy, a, nested);
    } else {
      PreflightRefuses(env, s, draft, appliedBy, a);
    }
  }

  lemma PreflightRefuses(env: Env, s: Server, draft: Option<Node>, appliedBy: AppliedBy, a: Answers)
    requires draft.Some? && a.lintOk
    ensures !a.preflightOk ==> Staged(env, s, draft, appliedBy, a).1 == Err(PreflightFailed)
    ensures a.preflightOk ==>
              var w, e := ResolvedDraft(env, s, draft, appliedBy, a), Staged(env, s, draft, appliedBy, a).1;
              if w.Err? then e == Err(VaultMissingSecret(w.error)) else e.Ok? && e.value.content == w.value
  {
    hide AfterMask, ResolveView, Unmask, MaskedWith, MintedBy, Listing, Put;
  }

  // ----- the snapshot of a run -----

  // The server at the end of the run's own steps: from there on only a rollback it starts
  // changes anything, and that is a run of its own.
  ghost predicate OwnEnd(env: Env, st: Settings, s: Server, draft: Option<Node>, appliedBy: AppliedBy, a: Answers, nested: Answers, t: Server) {
    var r := Deploy(env, st, s, draft, appliedBy, a, nested);
    && t.live == (if r.writes == [] then s.live else r.writes[0])
    && (r.nested == 0 ==> r.server == t)
    && (r.nested == 1 ==>
          || r.server == t
          || exists d :: r.server == Deploy(env, st, t, Some(d), AutoRollback, nested, nested).server)
  }

  // A run whose draft passes lint: exactly one snapshot of the live document is added
  // before anything is written, its id is the one the run reports, and its secrets are
  // the entries that name it; except for a rollback started by a run, which may find
  // that the newest snapshot shows the document already.
  lemma SnapshotOfRun(env: Env, st: Settings, s: Server, draft: Option<Node>, appliedBy: AppliedBy, a: Answers, nested: Answers)
    returns (t: Server, snap: Snapshot, v: VaultState)
    requires Distinct(env.uuid) && Sane(env, s) && draft.Some? && a.lintOk
    ensures var r := Deploy(env, st, s, draft, appliedBy, a, nested);
            var secrets := Secrets(s.live, env.fields);
            && OwnEnd(env, st, s, draft, appliedBy, a, nested, t)
            && Compared(env, s, draft.value, Server(s.live, v, s.dir))
            && (r.result.Ok? ==> r.result.value == snap.id)
            && if appliedBy == AutoRollback && Listing(s.dir) != []
                  && env.sha(Listing(s.dir)[0].masked) == env.sha(Masked(s.live, env.fields, env.uuid, v.next))
               then t.dir == s.dir && t.vault.entries == v.entries && snap == Listing(s.dir)[0]
               else
                 && IsSnapshot(env, snap, s.live, v.next, appliedBy, a.now)
                 && AddedTo(s.dir, snap, t.dir)
                 && Stores(env.uuid, v, secrets, [snap.id], t.vault)
  {
    hide AfterDiff, Compared, Stores, IsSnapshot, AddedTo, CreateSnapshot, Masked, Listing, Sane, OwnEnd, Secrets;
    var s1 := AfterDiff(env, s, draft.value);
    SameDir(env, s, draft.value);
    DiffCompares(env, s, draft.value);
    SnapshotCreated(env, s1, s.live, appliedBy, a.now);
    var created := CreateSnapshot(env, s1, s.live, appliedBy, a.now);
    t := StagedEnd(env, st, s, draft, appliedBy, a, nested);
    snap := if created.1.Some? then created.1.value else Listing(s.dir)[0];
    v := s1.vault;
    ReportedId(env, st, s, draft, appliedBy, a, nested);
  }

  lemma ReportedId(env: Env, st: Settings, s: Server, draft: Option<Node>, appliedBy: AppliedBy, a: Answers, nested: Answers)
    requires draft.Some? && a.lintOk
    ensures var r := Deploy(env, st, s, draft, appliedBy, a, nested);
            var s1 := AfterDiff(env, s, draft.value);
            var created := CreateSnapshot(env, s1, s.live, appliedBy, a.now);
            r.result.Ok? ==> Some(r.result.value) == SnapshotIdOf(created.1, created.0.dir)
  {
    hide AfterDiff, CreateSnapshot, SnapshotIdOf, Unmask, ResolveView, ApplyRollback;
  }

  lemma StagedEnd(env: Env, st: Settings, s: Server, draft: Option<Node>, appliedBy: AppliedBy, a: Answers, nested: Answers) returns (t: Server)
    requires draft.Some? && a.lintOk
    ensures OwnEnd(env, st, s, draft, appliedBy, a, nested, t)
    ensures var created := CreateSnapshot(env, AfterDiff(env, s, draft.value), s.live, appliedBy, a.now).0;
            t.dir == created.dir && t.vault == created.vault
  {
    var staged := Staged(env, s, draft, appliedBy, a);
    StagedServer(env, s, draft, appliedBy, a);
    StagedFacts(env, s, draft, appliedBy, a);
    hide Staged, AfterDiff, CreateSnapshot, ApplyRollback, ResolvedDraft;
    OneDeploy(env, st, s, draft, appliedBy, a, nested);
    if staged.1.Err? {
      t := staged.0;
    } else {
      t := staged.0.(live := staged.1.value.content);
      if RollsBack(st, appliedBy, a) {
        NestedIsRun(env, st, t, staged.1.value.snapshotId, nested);
      } else {
        SettledPlain(env, st, t, staged.1.value.snapshotId, appliedBy, a, nested);
      }
    }
  }

  lemma StagedServer(env: Env, s: Server, draft: Option<Node>, appliedBy: AppliedBy, a: Answers)
    requires draft.Some? && a.lintOk
    ensures Staged(env, s, draft, appliedBy, a).0 == CreateSnapshot(env, AfterDiff(env, s, draft.value), s.live, appliedBy, a.now).0
  {
    hide AfterDiff, CreateSnapshot, SnapshotIdOf, Unmask, ResolveView;
  }

  lemma NestedIsRun(env: Env, st: Settings, t: Server, id: string, nested: Answers)
    ensures var u := ApplyRollback(env, st, t, id, true, 0, nested, nested).0.server;
            u == t || exists d :: u == Deploy(env, st, t, Some(d), AutoRollback, nested, nested).server
  {
    hide Deploy, Unmask, Find;
  }

  // The operator's own deploy that starts no rollback: the directory is the old one with
  // exactly one more snapshot, a masked copy of the live document, if and only if the
  // draft passes lint.
  lemma OneSnapshotIff(env: Env, st: Settings, s: Server, draft: Option<Node>, a: Answers, nested: Answers)
    requires Distinct(env.uuid) && Sane(env, s) && Deploy(env, st, s, draft, User, a, nested).nested == 0
    ensures var r := Deploy(env, st, s, draft, User, a, nested);
            && (draft.None? || !a.lintOk ==> r.server.dir == s.dir)
            && (draft.Some? && a.lintOk ==>
                  exists snap, k: nat :: IsSnapshot(env, snap, s.live, k, User, a.now) && AddedTo(s.dir, snap, r.server.dir))
  {
    hide Deploy, Sane, IsSnapshot, AddedTo, Compared, Stores;
    if draft.None? || !a.lintOk {
      LintRefuses(env, st, s, draft, User, a, nested);
    } else {
      var t, snap, v := SnapshotOfRun(env, st, s, draft, User, a, nested);
    }
  }

  // ----- the rollback counter -----

  // A rollback that the healthcheck asks for is refused exactly at a counter above zero,
  // and then does nothing but clear it; every other rollback leaves the counter as it was.
  lemma RollbackDepth(env: Env, st: Settings, s: Server, id: string, auto: bool, depth: nat, a: Answers, nested: Answers)
    ensures var r := ApplyRollback(env, st, s, id, auto, depth, a, nested);
            if auto && depth > 0 then r == (Run(s, Err(RollbackRecursion), [], 0), 0)
            else r.1 == depth && r.0.result != Err(RollbackRecursion)
  {
    hide Unmask, Find, Deploy;
    if !(auto && depth > 0) && Find(s.dir, id).Some? {
      var draft := Unmask(Find(s.dir, id).value.masked, ValuesOf(s.vault.entries));
      if draft.Ok? {
        ErrorOfRun(env, st, s, Some(draft.value), if auto then AutoRollback else Rollback, a, nested);
      }
    }
  }
}
