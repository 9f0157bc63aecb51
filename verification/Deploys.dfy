// What a single deploy and a rollback do to the live configuration.
module Deploys {
  import opened Outcome
  import opened Yaml
  import opened Mask
  import opened MaskLaws
  import opened VaultStore
  import opened ViewSentinels
  import opened ViewFacts
  import opened Snapshots
  import opened SnapshotFacts
  import opened VaultFacts
  import opened Pipeline
  import opened Runs

  // A failure in a step before the write.
  predicate BeforeWrite(e: DeployError) {
    e.LintBlocked? || e.NoSnapshot? || e.PreflightFailed? || e.VaultMissingSecret? || e.ChangedExternally?
  }

  // What the run writes first, from the vault as it is at the write.
  function ResolvedDraft(env: Env, s: Server, draft: Option<Node>, appliedBy: AppliedBy, a: Answers): Result<Node, MissingSecret>
    requires draft.Some?
  {
    Unmask(ResolveView(draft.value, s.live), ValuesOf(Staged(env, s, draft, appliedBy, a).0.vault.entries))
  }

  lemma StagedFacts(env: Env, s: Server, draft: Option<Node>, appliedBy: AppliedBy, a: Answers)
    ensures var staged := Staged(env, s, draft, appliedBy, a);
            && staged.0.live == s.live
            && (staged.1.Err? ==> BeforeWrite(staged.1.error) && !staged.1.error.NoSnapshot?)
            && (staged.1.Ok? ==> draft.Some? && a.lintOk && a.preflightOk
                                 && ResolvedDraft(env, s, draft, appliedBy, a) == Ok(staged.1.value.content))
            && (draft.Some? && a.lintOk && a.preflightOk && staged.1.Err? ==>
                  ResolvedDraft(env, s, draft, appliedBy, a) == Err(staged.1.error.missing))
  {
    hide AfterMask, ResolveView, Unmask, MaskedWith, MintedBy, Listing, Put;
  }

  // From the write on, a run that does not roll back keeps what it wrote.
  lemma SettledPlain(env: Env, st: Settings, s: Server, id: string, appliedBy: AppliedBy, a: Answers, nested: Answers)
    requires !ShouldRollBack(st, appliedBy, FailedPhase(a.health)) || !a.reloadOk || !st.healthcheck || a.health.Healthy?
    ensures var r := Settled(env, st, s, id, appliedBy, a, nested);
            && r.writes == [s.live] && r.nested == 0 && r.server == s && !RolledBack(r.result)
            && (r.result.Err? ==> !BeforeWrite(r.result.error))
            && (r.result.Ok? <==> a.reloadOk && (st.healthcheck ==> a.health.Healthy?))
  {
  }

  // A deploy that a rollback makes starts none itself, and writes what its draft
  // resolves to when its lint and preflight pass.
  lemma NestedDeploy(env: Env, st: Settings, s: Server, d: Node, appliedBy: AppliedBy, a: Answers, nested: Answers)
    requires appliedBy != User
    ensures var r := Deploy(env, st, s, Some(d), appliedBy, a, nested);
            var w := ResolvedDraft(env, s, Some(d), appliedBy, a);
            && r.nested == 0
            && r.writes == (if a.lintOk && a.preflightOk && w.Ok? then [w.value] else [])
            && r.server.live == (if r.writes == [] then s.live else r.writes[0])
            && (r.result.Ok? <==> r.writes != [] && a.reloadOk && (st.healthcheck ==> a.health.Healthy?))
  {
    hide Staged, Settled, ResolveView, Unmask, ResolvedDraft;
    StagedFacts(env, s, Some(d), appliedBy, a);
    var staged := Staged(env, s, Some(d), appliedBy, a);
    if staged.1.Ok? {
      SettledPlain(env, st, staged.0.(live := staged.1.value.content), staged.1.value.snapshotId, appliedBy, a, nested);
    }
  }

  lemma CoercedPending(c: Node, fields: set<string>)
    ensures Pending(Coerced(c, fields)) == Pending(c)
  {
    CoercedMarks(c, fields, true);
  }

  lemma RollbackOnce(env: Env, st: Settings, s: Server, id: string, auto: bool, depth: nat, a: Answers, nested: Answers)
    ensures var r := ApplyRollback(env, st, s, id, auto, depth, a, nested).0;
            && r.nested == 0 && |r.writes| <= 1
            && r.server.live == (if r.writes == [] then s.live else r.writes[0])
            && (r.result.Ok? <==> r.writes != [] && a.reloadOk && (st.healthcheck ==> a.health.Healthy?))
  {
    hide Deploy, ResolvedDraft, Unmask;
    var snap := Find(s.dir, id);
    if snap.Some? {
      var draft := Unmask(snap.value.masked, ValuesOf(s.vault.entries));
      if draft.Ok? {
        NestedDeploy(env, st, s, draft.value, if auto then AutoRollback else Rollback, a, nested);
      }
    }
  }

  // A document with nothing to unmask is written with its markers filled from the live one.
  lemma PlainWrite(env: Env, s: Server, d: Node, appliedBy: AppliedBy, a: Answers)
    requires Pending(d) == {} && Pending(s.live) == {}
    ensures ResolvedDraft(env, s, Some(d), appliedBy, a) == Ok(ResolveView(d, s.live))
  {
    hide Staged, ResolveView, Unmask, Pending;
    ResolveViewMarks(d, s.live);
    UnmaskPlain(ResolveView(d, s.live), ValuesOf(Staged(env, s, Some(d), appliedBy, a).0.vault.entries));
  }

  // Rolling back to a snapshot of c whose secrets are in the vault: c is unmasked, up to
  // the coercion of its secret scalars to strings, its markers are filled from the live
  // document, and the outcome is written; or the run fails before the write.
  lemma RestoreWrites(env: Env, st: Settings, s: Server, snap: Snapshot, c: Node, k: nat, auto: bool, depth: nat, a: Answers, nested: Answers)
    requires Find(s.dir, snap.id) == Some(snap) && snap.masked == Masked(c, env.fields, env.uuid, k)
    requires Holds(ValuesOf(s.vault.entries), Secrets(c, env.fields), env.uuid, k)
    requires Plain(s.vault.entries) && !(auto && depth > 0)
    ensures var r := ApplyRollback(env, st, s, snap.id, auto, depth, a, nested).0;
            var d := Unmask(Coerced(c, env.fields), ValuesOf(s.vault.entries));
            && (d.Ok? <==> Pending(c) <= s.vault.entries.Keys)
            && (d.Err? ==> r.result == Err(VaultMissingSecret(d.error)) && r.server == s && r.writes == [])
            && (d.Ok? ==>
                  var w := ResolvedDraft(env, s, Some(d.value), if auto then AutoRollback else Rollback, a);
                  && Pending(d.value) == {}
                  && r.writes == (if a.lintOk && a.preflightOk && w.Ok? then [w.value] else [])
                  && (Pending(s.live) == {} ==> w == Ok(ResolveView(d.value, s.live))))
            && (Pending(c) == {} ==> d == Ok(Coerced(c, env.fields)))
            && r.server.live == (if r.writes == [] then s.live else r.writes[0])
  {
    hide Deploy, Unmask, Masked, Holds, Coerced, ResolveView, ResolvedDraft, Pending;
    var appliedBy, values := if auto then AutoRollback else Rollback, ValuesOf(s.vault.entries);
    UnmaskMasked(c, env.fields, env.uuid, k, values);
    CoercedPending(c, env.fields);
    ValuesPlain(s.vault.entries);
    UnmaskResolves(Coerced(c, env.fields), values);
    var d := Unmask(Coerced(c, env.fields), values);
    if d.Ok? {
      NestedDeploy(env, st, s, d.value, appliedBy, a, nested);
      if Pending(s.live) == {} {
        PlainWrite(env, s, d.value, appliedBy, a);
      }
    }
    if Pending(c) == {} {
      UnmaskPlain(Coerced(c, env.fields), values);
    }
  }

  // A new snapshot can be found, and its secrets are in the vault.
  lemma CreatedHolds(env: Env, s: Server, raw: Node, appliedBy: AppliedBy, now: int)
    requires Distinct(env.uuid)
    ensures var created := CreateSnapshot(env, s, raw, appliedBy, now);
            created.1.Some? ==>
              && Find(created.0.dir, created.1.value.id) == created.1
              && created.1.value.masked == Masked(raw, env.fields, env.uuid, s.vault.next)
              && Holds(ValuesOf(created.0.vault.entries), Secrets(raw, env.fields), env.uuid, s.vault.next)
  {
    hide Masked, Holds, AddSecrets, Find, Put, Secrets;
    var created := CreateSnapshot(env, s, raw, appliedBy, now);
    if created.1.Some? {
      PutFound(s.dir, created.1.value);
      AddSecretsHolds(s.vault.entries, Secrets(raw, env.fields), env.uuid, s.vault.next, []);
      var entries := AfterMask(env, s.vault, raw).entries;
      assert ValuesOf(created.0.vault.entries) == ValuesOf(entries);
    }
  }

  // The snapshot of a deploy, as it stands when the write is due.
  lemma StagedSnapshot(env: Env, s: Server, draft: Option<Node>, a: Answers) returns (snap: Snapshot, k: nat)
    requires Distinct(env.uuid) && Staged(env, s, draft, User, a).1.Ok?
    ensures var staged := Staged(env, s, draft, User, a);
            && snap.id == staged.1.value.snapshotId && Find(staged.0.dir, snap.id) == Some(snap)
            && snap.masked == Masked(s.live, env.fields, env.uuid, k)
            && Holds(ValuesOf(staged.0.vault.entries), Secrets(s.live, env.fields), env.uuid, k)
  {
    hide AfterMask, ResolveView, Unmask, Masked, MintedBy, Holds, Find, Listing, Put;
    var s1 := AfterDiff(env, s, draft.value);
    CreatedHolds(env, s1, s.live, User, a.now);
    snap := CreateSnapshot(env, s1, s.live, User, a.now).1.value;
    k := s1.vault.next;
  }

  // One deploy, for every server, draft and outcome of lint, preflight, reload and both
  // healthchecks, with no outside edits: at most two writes and one nested run, the
  // first write is the resolved draft, and the live document is the last one written.
  // A run writes nothing exactly when it fails before the write, and one that reports a
  // rollback has written twice.
  lemma OneDeploy(env: Env, st: Settings, s: Server, draft: Option<Node>, appliedBy: AppliedBy, a: Answers, nested: Answers)
    ensures var r := Deploy(env, st, s, draft, appliedBy, a, nested);
            && |r.writes| <= 2 && r.nested <= 1
            && r.server.live == (if r.writes == [] then s.live else r.writes[|r.writes| - 1])
            && (r.writes == [] <==> r.result.Err? && BeforeWrite(r.result.error))
            && (r.writes != [] <==> draft.Some? && a.lintOk && a.preflightOk && ResolvedDraft(env, s, draft, appliedBy, a).Ok?)
            && (r.writes != [] ==> ResolvedDraft(env, s, draft, appliedBy, a) == Ok(r.writes[0]))
            && (|r.writes| == 2 ==> r.nested == 1)
            && (r.nested == 1 <==> r.writes != [] && RollsBack(st, appliedBy, a))
            && (r.result.Ok? <==> r.writes != [] && a.reloadOk && (st.healthcheck ==> a.health.Healthy?))
            && (RolledBack(r.result) <==> |r.writes| == 2 && nested.reloadOk && nested.health.Healthy?)
            && (r.result.Ok? ==> |r.writes| == 1)
  {
    hide Staged, ResolvedDraft, ApplyRollback;
    StagedFacts(env, s, draft, appliedBy, a);
    var staged := Staged(env, s, draft, appliedBy, a);
    if staged.1.Ok? {
      var t := staged.0.(live := staged.1.value.content);
      var id := staged.1.value.snapshotId;
      if RollsBack(st, appliedBy, a) {
        RollbackOnce(env, st, t, id, true, 0, nested, nested);
      } else {
        SettledPlain(env, st, t, id, appliedBy, a, nested);
      }
    }
  }

  // The written configuration came up, a wired healthcheck then failed in phase 1 (or in
  // phase 3 with auto-rollback on, or by throwing), and the deploy was the operator's own.
  predicate RollsBack(st: Settings, appliedBy: AppliedBy, a: Answers) {
    && a.reloadOk && st.healthcheck && appliedBy == User && st.rollbackHook
    && (a.health.Threw? || a.health == Unhealthy(Some(1)) || (a.health == Unhealthy(Some(3)) && st.autoRollback))
  }

  lemma StagedSane(env: Env, s: Server, draft: Option<Node>, appliedBy: AppliedBy, a: Answers)
    requires Distinct(env.uuid) && Sane(env, s)
    ensures var staged := Staged(env, s, draft, appliedBy, a);
            && Sane(env, staged.0) && Later(env.uuid, s.vault, staged.0.vault)
            && s.vault.entries.Keys <= staged.0.vault.entries.Keys
            && (staged.1.Ok? ==> Pending(staged.1.value.content) == {})
  {
    hide Staged, Later;
    var foreign := UsedUuids(s.dir) + Sentinels(s.live) + StuckIn(draft);
    SaneInv(env, s, foreign);
    StagedKeeps(env, s, draft, appliedBy, a, foreign);
  }

  // The rollback a deploy starts: it puts back the document from before the deploy, up to
  // the coercion of its secret scalars to strings, with the markers in it filled from the
  // first write. It does so exactly when its own lint and preflight pass and the sentinels
  // of the old document, if it had any, resolve.
  lemma RollbackWhenDue(env: Env, st: Settings, s: Server, draft: Option<Node>, appliedBy: AppliedBy, a: Answers, nested: Answers)
    requires Distinct(env.uuid) && Sane(env, s)
    ensures var r := Deploy(env, st, s, draft, appliedBy, a, nested);
            var entries := Staged(env, s, draft, appliedBy, a).0.vault.entries;
            var before := Unmask(Coerced(s.live, env.fields), ValuesOf(entries));
            && (r.nested == 1 <==> r.writes != [] && RollsBack(st, appliedBy, a))
            && (r.result.Ok? <==> r.writes != [] && a.reloadOk && (st.healthcheck ==> a.health.Healthy?))
            && (|r.writes| == 2 <==> r.nested == 1 && nested.lintOk && nested.preflightOk && Pending(s.live) <= entries.Keys)
            && (|r.writes| == 2 ==> before.Ok? && Pending(before.value) == {} && r.writes[1] == ResolveView(before.value, r.writes[0]))
            && (Pending(s.live) == {} ==> before == Ok(Coerced(s.live, env.fields)))
            && (r.writes != [] ==> Pending(r.server.live) == {})
  {
    hide Staged, ResolvedDraft, ApplyRollback, Masked, Coerced, Holds, Sentinels, Pending, ResolveView, Unmask, Later;
    OldDocument(env, s, Staged(env, s, draft, appliedBy, a).0.vault.entries);
    StagedFacts(env, s, draft, appliedBy, a);
    StagedSane(env, s, draft, appliedBy, a);
    var staged := Staged(env, s, draft, appliedBy, a);
    if staged.1.Ok? {
      var t := staged.0.(live := staged.1.value.content);
      if RollsBack(st, appliedBy, a) {
        var snap, k := StagedSnapshot(env, s, draft, a);
        RollbackOnce(env, st, t, snap.id, true, 0, nested, nested);
        RestoreWrites(env, st, t, snap, s.live, k, true, 0, nested, nested);
        RestoredPending(env, s, t);
      } else {
        SettledPlain(env, st, t, staged.1.value.snapshotId, appliedBy, a, nested);
      }
    }
  }

  lemma OldDocument(env: Env, s: Server, entries: Entries)
    ensures Pending(s.live) == {} ==> Unmask(Coerced(s.live, env.fields), ValuesOf(entries)) == Ok(Coerced(s.live, env.fields))
  {
    CoercedPending(s.live, env.fields);
    if Pending(s.live) == {} {
      UnmaskPlain(Coerced(s.live, env.fields), ValuesOf(entries));
    }
  }

  lemma RestoredPending(env: Env, s: Server, t: Server)
    requires Pending(t.live) == {}
    ensures var before := Unmask(Coerced(s.live, env.fields), ValuesOf(t.vault.entries));
            before.Ok? && Pending(before.value) == {} ==> Pending(ResolveView(before.value, t.live)) == {}
  {
    hide Pending, ResolveView, Unmask, Coerced;
    var before := Unmask(Coerced(s.live, env.fields), ValuesOf(t.vault.entries));
    if before.Ok? {
      ResolveViewMarks(before.value, t.live);
    }
  }

  // After a reported rollback the live document is the one from before the deploy exactly
  // when that had no sentinel that unmasking sees, its secret scalars are strings, and the
  // deployed draft fills none of its markers with something else.
  lemma RollbackExactIff(env: Env, st: Settings, s: Server, draft: Option<Node>, appliedBy: AppliedBy, a: Answers, nested: Answers)
    requires Distinct(env.uuid) && Sane(env, s)
    requires RolledBack(Deploy(env, st, s, draft, appliedBy, a, nested).result)
    ensures var r := Deploy(env, st, s, draft, appliedBy, a, nested);
            && draft.Some? && ResolvedDraft(env, s, draft, appliedBy, a).Ok?
            && var written := ResolvedDraft(env, s, draft, appliedBy, a).value;
            && (r.server.live == s.live <==> Restorable(s.live, env.fields) && ResolveView(s.live, written) == s.live)
            && (Restorable(s.live, env.fields) && MarkerFree(s.live) ==> r.server.live == s.live)
            && (Pending(s.live) == {} ==> r.server.live == ResolveView(Coerced(s.live, env.fields), written))
            && (Pending(s.live) == {} && MarkerFree(s.live) ==> r.server.live == Coerced(s.live, env.fields))
  {
    hide MarkerFree, StringSecrets, Coerced, Deploy, ResolveView, Unmask, Pending, ResolvedDraft, Sane;
    OneDeploy(env, st, s, draft, appliedBy, a, nested);
    RollbackWhenDue(env, st, s, draft, appliedBy, a, nested);
    var written := ResolvedDraft(env, s, draft, appliedBy, a).value;
    RestoredIff(s.live, written, env.fields);
    if MarkerFree(s.live) {
      MarkerFreeUnchanged(s.live, written);
      CoercedMarkerFree(s.live, env.fields);
      MarkerFreeUnchanged(Coerced(s.live, env.fields), written);
    }
  }

  // No sentinel that unmasking sees, and only strings under the secret keys.
  ghost predicate Restorable(n: Node, fields: set<string>) {
    Pending(n) == {} && StringSecrets(n, fields)
  }

  // Without a second write the final live document is the one before the deploy or the
  // resolved draft. After a second write it is the one before exactly when that can be
  // restored and the first write fills none of its markers.
  lemma DeployAllOrNothing(env: Env, st: Settings, s: Server, draft: Option<Node>, appliedBy: AppliedBy, a: Answers, nested: Answers)
    requires Distinct(env.uuid) && Sane(env, s)
    ensures var r := Deploy(env, st, s, draft, appliedBy, a, nested);
            && (|r.writes| < 2 ==> r.server.live == s.live || (draft.Some? && ResolvedDraft(env, s, draft, appliedBy, a) == Ok(r.server.live)))
            && (r.result.Err? && BeforeWrite(r.result.error) ==> r.server.live == s.live)
            && (r.result.Ok? ==> draft.Some? && ResolvedDraft(env, s, draft, appliedBy, a) == Ok(r.server.live))
            && (|r.writes| == 2 ==> (r.server.live == s.live <==> Restorable(s.live, env.fields) && ResolveView(s.live, r.writes[0]) == s.live))
            && (|r.writes| == 2 && Restorable(s.live, env.fields) && MarkerFree(s.live) ==> r.server.live == s.live)
  {
    hide MarkerFree, StringSecrets, Coerced, Deploy, ResolveView, Unmask, Pending, ResolvedDraft, Sane, Staged;
    OneDeploy(env, st, s, draft, appliedBy, a, nested);
    RollbackWhenDue(env, st, s, draft, appliedBy, a, nested);
    var r := Deploy(env, st, s, draft, appliedBy, a, nested);
    if |r.writes| == 2 {
      RestoredIff(s.live, r.writes[0], env.fields);
      if MarkerFree(s.live) {
        MarkerFreeUnchanged(s.live, r.writes[0]);
      }
    }
  }

  // Nothing a run stores before its write changes what the draft resolves to, as long as
  // no sentinel in it is a uuid that is still to be drawn.
  lemma ResolvedFromTheStart(env: Env, s: Server, draft: Node, appliedBy: AppliedBy, a: Answers)
    requires Distinct(env.uuid) && Sane(env, s)
    requires forall i: nat :: i >= s.vault.next ==> env.uuid(i) !in Pending(ResolveView(draft, s.live))
    ensures ResolvedDraft(env, s, Some(draft), appliedBy, a) == Unmask(ResolveView(draft, s.live), ValuesOf(s.vault.entries))
  {
    hide Staged, ResolveView, Pending, UniqueIds, Plain;
    var resolved := ResolveView(draft, s.live);
    StagedSane(env, s, Some(draft), appliedBy, a);
    var t := Staged(env, s, Some(draft), appliedBy, a).0;
    forall u | u in Pending(resolved)
      ensures u in s.vault.entries <==> u in t.vault.entries
      ensures u in s.vault.entries ==> s.vault.entries[u].value == t.vault.entries[u].value
    {
      if u in s.vault.entries {
        ValueKept(env.uuid, s.vault, t.vault, u);
      }
    }
    UnmaskAgree(resolved, ValuesOf(s.vault.entries), ValuesOf(t.vault.entries));
  }

  // ----- rolling back after a run -----

  lemma {:induction false} HoldsAgree(a: Values, b: Values, secrets: seq<string>, uuid: nat -> string, k: nat)
    requires Holds(a, secrets, uuid, k)
    requires forall u :: u in Minted(uuid, k, |secrets|) ==> u in a && u in b && a[u] == b[u]
    ensures Holds(b, secrets, uuid, k)
    decreases |secrets|
  {
    if secrets != [] {
      assert uuid(k) in Minted(uuid, k, |secrets|);
      HoldsAgree(a, b, secrets[1..], uuid, k + 1);
    }
  }

  // The secrets of a snapshot are in the vault, and it can be found, as long as it survives.
  lemma SurvivorHolds(env: Env, st: Settings, s: Server, events: seq<Event>, snap: Snapshot, c: Node, k: nat)
    requires Distinct(env.uuid) && Sane(env, s) && Survives(env, st, s, events, snap)
    requires snap.masked == Masked(c, env.fields, env.uuid, k)
    requires Holds(ValuesOf(s.vault.entries), Secrets(c, env.fields), env.uuid, k)
    ensures var t := AfterAll(env, st, s, events);
            && Sane(env, t) && Find(t.dir, snap.id) == Some(snap)
            && Holds(ValuesOf(t.vault.entries), Secrets(c, env.fields), env.uuid, k)
  {
    hide Holds, Masked, Secrets, UniqueIds, Plain, Minted, Sentinels, AfterAll, Survives, AllResolve, Fresh, Later, Stuck, Pending;
    var secrets, t, foreign := Secrets(c, env.fields), AfterAll(env, st, s, events), UsedUuids(s.dir) + Sentinels(s.live);
    SaneInv(env, s, foreign);
    RunKeeps(env, st, s, events, foreign);
    StaysResolved(env, st, s, events, snap, foreign);
    MemberFound(t.dir, snap);
    MaskedSentinels(c, env.fields, env.uuid, k);
    HoldsMinted(ValuesOf(s.vault.entries), secrets, env.uuid, k);
    HoldsAgree(ValuesOf(s.vault.entries), ValuesOf(t.vault.entries), secrets, env.uuid, k);
  }

  lemma {:induction false} HoldsMinted(values: Values, secrets: seq<string>, uuid: nat -> string, k: nat)
    requires Holds(values, secrets, uuid, k)
    ensures Minted(uuid, k, |secrets|) <= values.Keys
    decreases |secrets|
  {
    if secrets != [] {
      HoldsMinted(values, secrets[1..], uuid, k + 1);
    }
  }

  // A document is captured as a snapshot, and the snapshot survives any later run, with
  // any drafts, edits, sweeps and rollbacks in it. A rollback to it then unmasks to the
  // captured document, up to the coercion of its secret scalars to strings, if the
  // sentinels it had itself resolve; it is written, its markers filled from the live
  // document of that moment, when lint and preflight pass. The live document ends as the
  // captured one exactly when that had no sentinel that unmasking sees, its secret
  // scalars are strings, and the live document fills none of its markers.
  lemma RollbackRestores(env: Env, st: Settings, s0: Server, c: Node, appliedBy: AppliedBy, now: int, events: seq<Event>,
                         auto: bool, a: Answers, nested: Answers)
    requires Distinct(env.uuid) && Sane(env, s0)
    requires var created := CreateSnapshot(env, s0, c, appliedBy, now);
             created.1.Some? && Survives(env, st, created.0, events, created.1.value)
    ensures var created := CreateSnapshot(env, s0, c, appliedBy, now);
            var s2 := AfterAll(env, st, created.0, events);
            var r := ApplyRollback(env, st, s2, created.1.value.id, auto, 0, a, nested).0;
            var d := Unmask(Coerced(c, env.fields), ValuesOf(s2.vault.entries));
            && (d.Ok? <==> Pending(c) <= s2.vault.entries.Keys)
            && (d.Err? ==> r.result == Err(VaultMissingSecret(d.error)) && r.server == s2)
            && (Pending(c) == {} ==> d == Ok(Coerced(c, env.fields)))
            && (d.Ok? ==>
                  var w := ResolvedDraft(env, s2, Some(d.value), if auto then AutoRollback else Rollback, a);
                  r.writes == (if a.lintOk && a.preflightOk && w.Ok? then [w.value] else []))
            && (d.Ok? && Pending(s2.live) == {} ==>
                  && r.writes == (if a.lintOk && a.preflightOk then [ResolveView(d.value, s2.live)] else [])
                  && r.server.live == (if a.lintOk && a.preflightOk then ResolveView(d.value, s2.live) else s2.live))
            && (r.writes != [] ==>
                  (r.server.live == c <==>
                     Restorable(c, env.fields) && ResolvedDraft(env, s2, Some(c), if auto then AutoRollback else Rollback, a) == Ok(c)))
            && (Pending(s2.live) == {} && r.writes != [] ==>
                  && (r.server.live == c <==> Restorable(c, env.fields) && ResolveView(c, s2.live) == c)
                  && (Restorable(c, env.fields) && MarkerFree(c) ==> r.server.live == c))
            && (Pending(c) == {} && MarkerFree(c) && a.lintOk && a.preflightOk ==> r.server.live == Coerced(c, env.fields))
            && (Restorable(c, env.fields) && MarkerFree(c) && a.lintOk && a.preflightOk ==> r.server.live == c)
  {
    hide ApplyRollback, CreateSnapshot, AfterAll, Survives, Holds, Masked, Coerced, MarkerFree, Pending, StringSecrets, Unmask, ResolveView,
      ResolvedDraft, Sentinels;
    var created := CreateSnapshot(env, s0, c, appliedBy, now);
    var s1, snap := created.0, created.1.value;
    var s2 := AfterAll(env, st, s1, events);
    CreatedHolds(env, s0, c, appliedBy, now);
    CreatedSane(env, s0, c, appliedBy, now);
    SurvivorHolds(env, st, s1, events, snap, c, s0.vault.next);
    RestoreWrites(env, st, s2, snap, c, s0.vault.next, auto, 0, a, nested);
    RestoredIff(c, s2.live, env.fields);
    var d := Unmask(Coerced(c, env.fields), ValuesOf(s2.vault.entries));
    if d.Ok? {
      ResolveViewMarks(d.value, s2.live);
      WrittenBackIff(env, s2, c, d.value, if auto then AutoRollback else Rollback, a);
    }
    if MarkerFree(c) {
      MarkerFreeUnchanged(c, s2.live);
      if Pending(c) == {} {
        RestoredAsIs(env, s2, c, if auto then AutoRollback else Rollback, a);
        CoercedIff(c, env.fields);
      }
    }
  }

  // What a restored document resolves to is the captured one exactly when that can be
  // restored and resolves to itself, whatever sentinels the live document holds.
  lemma WrittenBackIff(env: Env, s: Server, c: Node, d: Node, appliedBy: AppliedBy, a: Answers)
    requires Distinct(env.uuid) && Sane(env, s) && Unmask(Coerced(c, env.fields), ValuesOf(s.vault.entries)) == Ok(d)
    ensures ResolvedDraft(env, s, Some(d), appliedBy, a) == Ok(c) <==>
              Restorable(c, env.fields) && ResolvedDraft(env, s, Some(c), appliedBy, a) == Ok(c)
  {
    hide Staged, Coerced, Pending, StringSecrets, Unmask, ResolveView, Sane;
    CoercedIff(c, env.fields);
    CoercedPending(c, env.fields);
    if Pending(c) == {} {
      UnmaskPlain(Coerced(c, env.fields), ValuesOf(s.vault.entries));
    }
    if ResolvedDraft(env, s, Some(d), appliedBy, a) == Ok(c) {
      var entries := Staged(env, s, Some(d), appliedBy, a).0.vault.entries;
      StagedSane(env, s, Some(d), appliedBy, a);
      SanePlain(env, Staged(env, s, Some(d), appliedBy, a).0);
      ValuesPlain(entries);
      UnmaskResolves(ResolveView(d, s.live), ValuesOf(entries));
      CoercedMasks(c, env.fields, n => "", 0);
      ResolveViewStringSecrets(d, s.live, env.fields);
      UnmaskStringSecrets(ResolveView(d, s.live), env.fields, ValuesOf(entries));
    }
  }

  lemma SanePlain(env: Env, s: Server)
    requires Sane(env, s)
    ensures Plain(s.vault.entries)
  {
  }

  lemma CreatedSane(env: Env, s: Server, raw: Node, appliedBy: AppliedBy, now: int)
    requires Distinct(env.uuid) && Sane(env, s)
    ensures Sane(env, CreateSnapshot(env, s, raw, appliedBy, now).0)
  {
    hide CreateSnapshot, Sentinels, Stuck, Later;
    var foreign := UsedUuids(s.dir) + Sentinels(s.live) + Sentinels(raw);
    SaneInv(env, s, foreign);
    SentinelsSplit(raw);
    CreateKeeps(env, s, raw, appliedBy, now, foreign);
  }

  // A document without markers and sentinels is written with its secret scalars as
  // strings and nothing else changed, whatever the live one holds.
  lemma RestoredAsIs(env: Env, s: Server, c: Node, appliedBy: AppliedBy, a: Answers)
    requires Pending(c) == {} && MarkerFree(c)
    ensures ResolvedDraft(env, s, Some(Coerced(c, env.fields)), appliedBy, a) == Ok(Coerced(c, env.fields))
  {
    hide Staged, Unmask, Coerced, Pending, ResolveView, MarkerFree;
    CoercedMarkerFree(c, env.fields);
    CoercedPending(c, env.fields);
    MarkerFreeUnchanged(Coerced(c, env.fields), s.live);
    UnmaskPlain(Coerced(c, env.fields), ValuesOf(Staged(env, s, Some(Coerced(c, env.fields)), appliedBy, a).0.vault.entries));
  }

  // ----- documents that a rollback does not restore -----

  // The document with one secret at the root.
  function SecretDoc(text: string): Node {
    Map([Pair(Leaf(Str("secret")), Leaf(Str(text)))])
  }

  lemma PairStringSecrets(key: string, text: string, fields: set<string>)
    ensures StringSecretsOf(Pair(Leaf(Str(key)), Leaf(Str(text))), fields)
  {
    LeafStringSecrets(Str(key), fields);
    LeafStringSecrets(Str(text), fields);
  }

  lemma SecretDocFacts(text: string, fields: set<string>)
    requires !IsSentinel(text)
    ensures Sentinels(SecretDoc(text)) == {} && Pending(SecretDoc(text)) == {}
    ensures StringSecrets(SecretDoc(text), fields)
  {
    var pair := Pair(Leaf(Str("secret")), Leaf(Str(text)));
    assert [pair][1..] == [];
    assert SentinelsOf(pair) == {};
    assert MarksOf(pair, true) == {} by {
      assert forall v :: Marks(Leaf(v), true) == {};
    }
    PairStringSecrets("secret", text, fields);
    assert PairSentinels([pair]) == SentinelsOf(pair) + PairSentinels([]);
    assert PairMarks([pair], true) == MarksOf(pair, true) + PairMarks([], true);
  }

  lemma SecretDocView(text: string, current: Node)
    ensures text != META_SECRET_SENTINEL ==> ResolveView(SecretDoc(text), current) == SecretDoc(text)
    ensures ResolveView(SecretDoc(META_SECRET_SENTINEL), SecretDoc(text)) == SecretDoc(text)
  {
    var pair := Pair(Leaf(Str("secret")), Leaf(Str(text)));
    var mark := Pair(Leaf(Str("secret")), Leaf(Str(META_SECRET_SENTINEL)));
    if text != META_SECRET_SENTINEL {
      assert UnmarkedRoots([pair]) by {
        assert [pair][1..] == [];
        assert "secret" != "proxies";
      }
      MarkerFreeUnchanged(SecretDoc(text), current);
    }
    assert "secret" != "proxies";
    assert [mark][1..] == [] && [pair][1..] == [];
    assert AtSecret([mark], text) == [pair];
    assert Get([pair], "secret") == Some(Leaf(Str(text)));
    assert Get([pair], "proxies") == None;
  }

  // A draft with the keep-existing marker is deployed while there is no secret to keep: the
  // marker itself is written. When the next deploy fails its healthcheck, the rollback to
  // that document is reported, but it fills the marker from the draft it should undo.
  lemma MarkerIsNotRestored(env: Env, st: Settings, s: Server, now: int)
    requires Distinct(env.uuid) && Sane(env, s) && s.live == Map([])
    requires st.healthcheck && st.rollbackHook
    ensures var well, ill := Answers(true, true, true, Healthy, now), Answers(true, true, true, Unhealthy(Some(1)), now);
            var first := Deploy(env, st, s, Some(SecretDoc(META_SECRET_SENTINEL)), User, well, well);
            var second := Deploy(env, st, first.server, Some(SecretDoc("new")), User, ill, well);
            && first.server.live == SecretDoc(META_SECRET_SENTINEL) && StringSecrets(first.server.live, env.fields) && Sentinels(first.server.live) == {}
            && RolledBack(second.result) && second.server.live == SecretDoc("new")
  {
    hide Deploy, ResolveView, MarkerFree, Pending, Sentinels, StringSecrets, Sane, SecretDoc, ResolvedDraft, Staged;
    var mark, draft := SecretDoc(META_SECRET_SENTINEL), SecretDoc("new");
    var well, ill := Answers(true, true, true, Healthy, now), Answers(true, true, true, Unhealthy(Some(1)), now);
    assert META_SECRET_SENTINEL[0] == '_' && SENTINEL_PREFIX[0] == '$';
    SecretDocFacts(META_SECRET_SENTINEL, env.fields);
    SecretDocFacts("new", env.fields);
    SecretDocView("new", mark);
    EmptyDocFacts(mark, s.live);
    PlainWrite(env, s, mark, User, well);
    OneDeploy(env, st, s, Some(mark), User, well, well);
    var first := Deploy(env, st, s, Some(mark), User, well, well);
    RollbackWhenDue(env, st, s, Some(mark), User, well, well);
    DeploySane(env, st, s, Some(mark), User, well, well);
    PlainWrite(env, first.server, draft, User, ill);
    OneDeploy(env, st, first.server, Some(draft), User, ill, well);
    RollbackWhenDue(env, st, first.server, Some(draft), User, ill, well);
    CoercedIff(mark, env.fields);
  }

  lemma EmptyDocFacts(draft: Node, live: Node)
    requires live == Map([])
    ensures Pending(live) == {} && ResolveView(draft, live) == draft
  {
  }

  lemma DeploySane(env: Env, st: Settings, s: Server, draft: Option<Node>, appliedBy: AppliedBy, a: Answers, nested: Answers)
    requires Distinct(env.uuid) && Sane(env, s)
    ensures Sane(env, Deploy(env, st, s, draft, appliedBy, a, nested).server)
  {
    hide Deploy, Sane;
    var foreign := UsedUuids(s.dir) + Sentinels(s.live) + StuckIn(draft);
    SaneInv(env, s, foreign);
    DeployKeeps(env, st, s, draft, appliedBy, a, nested, foreign);
  }

  // The deploy of a draft on which the healthcheck fails in phase 1, followed by a rollback
  // that comes up.
  function RolledBackRun(env: Env, st: Settings, s: Server, draft: Node, now: int): Run {
    Deploy(env, st, s, Some(draft), User, Answers(true, true, true, Unhealthy(Some(1)), now), Answers(true, true, true, Healthy, now))
  }

  // The outcome of such a run, for a draft that resolves to itself: the old document,
  // unmasked, with its secret scalars as strings, when it has no markers.
  lemma RolledBackTo(env: Env, st: Settings, s: Server, draft: Node, now: int)
    requires Distinct(env.uuid) && Sane(env, s) && st.healthcheck && st.rollbackHook
    requires Pending(draft) == {} && Pending(s.live) == {} && MarkerFree(draft) && MarkerFree(s.live)
    ensures var r := RolledBackRun(env, st, s, draft, now);
            RolledBack(r.result) && r.server.live == Coerced(s.live, env.fields)
  {
    hide Deploy, ResolveView, MarkerFree, Pending, Sane, ResolvedDraft, Staged, Coerced, StringSecrets;
    var ill, well := Answers(true, true, true, Unhealthy(Some(1)), now), Answers(true, true, true, Healthy, now);
    PlainWrite(env, s, draft, User, ill);
    OneDeploy(env, st, s, Some(draft), User, ill, well);
    RollbackWhenDue(env, st, s, Some(draft), User, ill, well);
    RollbackExactIff(env, st, s, Some(draft), User, ill, well);
  }

  // A document with a number under a secret key.
  const NUMBER_DOC: Node := Map([Pair(Leaf(Str("password")), Leaf(Other("42")))])
  const TEXT_DOC: Node := Map([Pair(Leaf(Str("password")), Leaf(Str("42")))])

  lemma NumberDocFacts(fields: set<string>)
    requires fields == DEFAULT_SECRET_FIELDS
    ensures Secrets(NUMBER_DOC, fields) == ["42"] && Pending(NUMBER_DOC) == {} && Coerced(NUMBER_DOC, fields) == TEXT_DOC
  {
    var pair := Pair(Leaf(Str("password")), Leaf(Other("42")));
    assert [pair][1..] == [];
    assert SecretOf(pair, fields) == Some("42");
    assert PairSecrets([pair], fields) == ["42"] + PairSecrets([], fields);
    assert PairMarks([pair], true) == MarksOf(pair, true) + PairMarks([], true);
    assert CoercedPair(pair, fields) == Pair(Leaf(Str("password")), Leaf(Str("42")));
    assert CoercedPairs([pair], fields) == [CoercedPair(pair, fields)];
  }

  lemma NumberDocMarkerFree()
    ensures MarkerFree(NUMBER_DOC) && MarkerFree(SecretDoc("new"))
  {
    var pair, draft := Pair(Leaf(Str("password")), Leaf(Other("42"))), Pair(Leaf(Str("secret")), Leaf(Str("new")));
    assert [pair][1..] == [] && [draft][1..] == [];
    assert "password" != "secret" && "password" != "proxies" && "secret" != "proxies";
    assert |META_SECRET_SENTINEL| != |"new"|;
  }

  // A number under a secret key comes back as a string: the rollback is reported, and the
  // document is not the one from before the deploy.
  lemma NumberIsNotRestored(env: Env, st: Settings, s: Server, now: int)
    requires Distinct(env.uuid) && Sane(env, s) && st.healthcheck && st.rollbackHook && env.fields == DEFAULT_SECRET_FIELDS
    requires s.live == NUMBER_DOC
    ensures var r := RolledBackRun(env, st, s, SecretDoc("new"), now);
            RolledBack(r.result) && r.server.live == TEXT_DOC && TEXT_DOC != s.live
  {
    hide RolledBackRun, Sane, SecretDoc, MarkerFree, Pending, Coerced, Secrets;
    NumberDocFacts(env.fields);
    NumberDocMarkerFree();
    SecretDocFacts("new", env.fields);
    RolledBackTo(env, st, s, SecretDoc("new"), now);
  }

  lemma SentinelDocFacts(u: string, fields: set<string>, values: Values)
    requires u in values
    ensures var doc := SecretDoc(Sentinel(u));
            Coerced(doc, fields) == doc && Unmask(doc, values) == Ok(SecretDoc(values[u])) && Pending(doc) == {u}
  {
    var pair := Pair(Leaf(Str("secret")), Leaf(Str(Sentinel(u))));
    SentinelUuid(u);
    assert [pair][1..] == [];
    hide IsSentinel, IsSecretKey, Sentinel, UuidOf;
    assert SecretOf(pair, fields) == None;
    assert CoercedPair(pair, fields) == pair;
    assert CoercedPairs([pair], fields) == [pair];
    assert UnmaskPair(pair, values) == Ok(Pair(Leaf(Str("secret")), Leaf(Str(values[u]))));
    assert UnmaskPairs([], values) == Ok([]);
    UnmaskPairsCons(pair, [], values);
    var shown := Pair(Leaf(Str("secret")), Leaf(Str(values[u])));
    assert [pair] + [] == [pair] && [shown] + [] == [shown];
    assert UnmaskPairs([pair], values) == Ok([shown]);
    assert MarksOf(pair, true) == {u} by {
      assert forall v :: Marks(Leaf(v), true) == {};
    }
    assert PairMarks([pair], true) == MarksOf(pair, true) + PairMarks([], true);
  }

  // A sentinel in the live document comes back as the secret it stands for.
  lemma SentinelIsNotRestored(env: Env, st: Settings, s: Server, now: int, u: string)
    requires Distinct(env.uuid) && Sane(env, s) && st.healthcheck && st.rollbackHook
    requires u in s.vault.entries && s.vault.entries[u].value == "pw" && s.live == SecretDoc(Sentinel(u))
    ensures var r := RolledBackRun(env, st, s, SecretDoc("new"), now);
            RolledBack(r.result) && r.server.live == SecretDoc("pw") && SecretDoc("pw") != s.live
  {
    var ill, well := Answers(true, true, true, Unhealthy(Some(1)), now), Answers(true, true, true, Healthy, now);
    var draft := SecretDoc("new");
    SentinelLonger(u);
    hide Deploy, ResolveView, Pending, Staged, Coerced, Unmask, Sentinel, Later;
    var t := Staged(env, s, Some(draft), User, ill).0;
    StagedSane(env, s, Some(draft), User, ill);
    ValueKept(env.uuid, s.vault, t.vault, u);
    SentinelDocFacts(u, env.fields, ValuesOf(t.vault.entries));
    SecretDocFacts("new", env.fields);
    SecretDocView("new", s.live);
    SecretDocView("pw", draft);
    UnmaskPlain(draft, ValuesOf(t.vault.entries));
    OneDeploy(env, st, s, Some(draft), User, ill, well);
    RollbackWhenDue(env, st, s, Some(draft), User, ill, well);
  }

  lemma SentinelLonger(u: string)
    ensures SecretDoc("pw") != SecretDoc(Sentinel(u))
    ensures "pw" != META_SECRET_SENTINEL && "new" != META_SECRET_SENTINEL && !IsSentinel("new")
  {
    assert |Sentinel(u)| > |"pw"|;
    assert SecretDoc("pw").pairs[0].value != SecretDoc(Sentinel(u)).pairs[0].value;
  }

  // What masking and unmasking make of a number under a secret key.
  lemma NumberComesBackAsString(env: Env, k: nat, values: Values)
    requires env.fields == DEFAULT_SECRET_FIELDS
    requires Holds(values, ["42"], env.uuid, k)
    ensures Secrets(NUMBER_DOC, env.fields) == ["42"]
    ensures Unmask(Masked(NUMBER_DOC, env.fields, env.uuid, k), values) == Ok(TEXT_DOC)
  {
    NumberDocFacts(env.fields);
    MaskThenUnmaskIff(NUMBER_DOC, env.fields, env.uuid, k, values);
  }
}
