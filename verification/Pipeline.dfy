// The deploy pipeline and rollback (apps/server/src/deploy/pipeline.ts,
// apps/server/src/deploy/rollback.ts). What the linters, mihomo and the healthcheck
// answer is a parameter of a run.
module Pipeline {
  import opened Outcome
  import opened Yaml
  import opened YamlTree
  import opened Mask
  import opened VaultStore
  import opened ViewSentinels
  import opened Snapshots

  datatype Health = Healthy | Unhealthy(phase: Option<int>) | Threw

  // What one run meets outside the server.
  datatype Answers = Answers(lintOk: bool, preflightOk: bool, reloadOk: bool, health: Health, now: int)

  // Whether the healthcheck and the rollback hook are wired, and MIHARBOR_AUTO_ROLLBACK.
  datatype Settings = Settings(healthcheck: bool, rollbackHook: bool, autoRollback: bool)

  datatype DeployError =
    | LintBlocked
    | NoSnapshot
    | PreflightFailed
    | VaultMissingSecret(missing: MissingSecret)
    | ChangedExternally
    | ReloadFailed
    | HealthcheckFailed(phase: Option<int>, rolledBackTo: Option<string>, rollbackError: Option<DeployError>)
    | UnknownSnapshot(id: string)
    | RollbackRecursion

  // A run: the server it leaves, the id of its snapshot or its error, the documents it
  // wrote to the live configuration, and the number of nested runs.
  datatype Run = Run(server: Server, result: Result<string, DeployError>, writes: seq<Node>, nested: nat)

  datatype Staging = Staging(snapshotId: string, content: Node)

  // ----- specification -----

  // Both documents are masked for the diff (step 1).
  function AfterDiff(env: Env, s: Server, draft: Node): Server {
    s.(vault := AfterMask(env, AfterMask(env, s.vault, s.live), ResolveView(draft, s.live)))
  }

  // The snapshot the run refers to: the one created, or the newest when deduplicated.
  function SnapshotIdOf(created: Option<Snapshot>, dir: seq<Snapshot>): Option<string> {
    match created
    case Some(snap) => Some(snap.id)
    case None => if Listing(dir) == [] then None else Some(Listing(dir)[0].id)
  }

  // Steps 1 to 4 and the unmasking of step 5: everything before the write.
  function Staged(env: Env, s: Server, draft: Option<Node>, appliedBy: AppliedBy, a: Answers): (Server, Result<Staging, DeployError>) {
    if draft.None? then (s, Err(LintBlocked))
    else
      var s1 := AfterDiff(env, s, draft.value);
      if !a.lintOk then (s1, Err(LintBlocked))
      else
        var created := CreateSnapshot(env, s1, s.live, appliedBy, a.now);
        var s2 := created.0;
        var id := SnapshotIdOf(created.1, s2.dir);
        if id.None? then (s2, Err(NoSnapshot))
        else if !a.preflightOk then (s2, Err(PreflightFailed))
        else
          match Unmask(ResolveView(draft.value, s.live), ValuesOf(s2.vault.entries))
          case Err(missing) => (s2, Err(VaultMissingSecret(missing)))
          case Ok(content) => (s2, Ok(Staging(id.value, content)))
  }

  // A runner that throws counts as a failure of phase 1.
  function FailedPhase(h: Health): Option<int> {
    match h
    case Healthy => None
    case Unhealthy(phase) => phase
    case Threw => Some(1)
  }

  predicate ShouldRollBack(st: Settings, appliedBy: AppliedBy, phase: Option<int>) {
    appliedBy == User && st.rollbackHook && (phase == Some(1) || (phase == Some(3) && st.autoRollback))
  }

  // One pipeline run; nested answers are met by an auto-rollback it may start.
  function Deploy(env: Env, st: Settings, s: Server, draft: Option<Node>, appliedBy: AppliedBy, a: Answers, nested: Answers): Run
    decreases if appliedBy == User then 2 else 0
  {
    var staged := Staged(env, s, draft, appliedBy, a);
    var s2 := staged.0;
    if staged.1.Err? then Run(s2, Err(staged.1.error), [], 0)
    else
      match VerifyAndWrite(env, s2.live, staged.1.value.content, env.sha(s.live))
      case None => Run(s2, Err(ChangedExternally), [], 0)
      case Some(live) => Settled(env, st, s2.(live := live), staged.1.value.snapshotId, appliedBy, a, nested)
  }

  // From the write on: reload, healthcheck and auto-rollback.
  function Settled(env: Env, st: Settings, s: Server, id: string, appliedBy: AppliedBy, a: Answers, nested: Answers): Run
    decreases if appliedBy == User then 2 else 0, 0
  {
    if !a.reloadOk then Run(s, Err(ReloadFailed), [s.live], 0)
    else if !st.healthcheck || a.health.Healthy? then Run(s, Ok(id), [s.live], 0)
    else
      var phase := FailedPhase(a.health);
      if !ShouldRollBack(st, appliedBy, phase) then Run(s, Err(HealthcheckFailed(phase, None, None)), [s.live], 0)
      else
        var r := ApplyRollback(env, st, s, id, true, 0, nested, nested).0;
        Run(r.server, Err(AfterRollback(phase, r.result)), [s.live] + r.writes, 1 + r.nested)
  }

  function AfterRollback(phase: Option<int>, result: Result<string, DeployError>): DeployError {
    match result
    case Ok(id) => HealthcheckFailed(phase, Some(id), None)
    case Err(e) => HealthcheckFailed(phase, None, Some(e))
  }

  predicate RolledBack(r: Result<string, DeployError>) {
    r.Err? && r.error.HealthcheckFailed? && r.error.rolledBackTo.Some?
  }

  // A rollback from a context at the given depth, and the depth it leaves.
  function ApplyRollback(env: Env, st: Settings, s: Server, id: string, auto: bool, depth: nat, a: Answers, nested: Answers): (Run, nat)
    decreases 1
  {
    if auto && depth + 1 > 1 then (Run(s, Err(RollbackRecursion), [], 0), 0)
    else
      var r := match Find(s.dir, id)
               case None => Run(s, Err(UnknownSnapshot(id)), [], 0)
               case Some(snap) =>
                 match Unmask(snap.masked, ValuesOf(s.vault.entries))
                 case Err(missing) => Run(s, Err(VaultMissingSecret(missing)), [], 0)
                 case Ok(draft) => Deploy(env, st, s, Some(draft), if auto then AutoRollback else Rollback, a, nested);
      (r, depth)
  }

  // ----- the deploy context -----

  class DeployContext {
    const env: Env
    const settings: Settings
    const snapshots: SnapshotManager
    const transport: LocalFsTransport
    const vault: Vault
    var autoRollbackDepth: nat

    constructor (env: Env, settings: Settings, snapshots: SnapshotManager)
      requires snapshots.env == env && snapshots.Wired()
      ensures this.env == env && this.settings == settings && this.snapshots == snapshots
      ensures Wired() && autoRollbackDepth == 0
    {
      this.env := env;
      this.settings := settings;
      this.snapshots := snapshots;
      this.transport := snapshots.transport;
      this.vault := snapshots.vault;
      autoRollbackDepth := 0;
    }

    ghost predicate Wired() {
      snapshots.env == env && snapshots.Wired() && transport == snapshots.transport && vault == snapshots.vault
    }

    // Parses the draft, substitutes the view markers and unmasks it for the write.
    method WriteContent(draft: Node, current: Node) returns (r: Result<Node, MissingSecret>)
      requires Wired()
      ensures r == Unmask(ResolveView(draft, current), ValuesOf(vault.entries))
    {
      var doc := Parse(draft);
      ResolveViewSentinels(doc, current);
      var missing := vault.UnmaskDoc(doc);
      r := if missing.Some? then Err(missing.value) else Ok(View(doc));
    }

    // Step 1 on copies of both documents.
    method MaskForDiff(current: Node, draft: Node)
      requires Wired()
      modifies vault
      ensures vault.State() == AfterMask(env, AfterMask(env, old(vault.State()), current), ResolveView(draft, current))
    {
      var _, _ := snapshots.MaskCopy(current);
      var doc := Parse(draft);
      ResolveViewSentinels(doc, current);
      var _, _ := snapshots.MaskCopy(View(doc));
    }

    method Stage(draft: Option<Node>, current: Node, appliedBy: AppliedBy, a: Answers) returns (r: Result<Staging, DeployError>)
      requires Wired() && current == transport.live
      modifies transport`dir, vault
      ensures (snapshots.State(), r) == Staged(env, old(snapshots.State()), draft, appliedBy, a)
    {
      if draft.None? {
        return Err(LintBlocked);
      }
      MaskForDiff(current, draft.value);
      if !a.lintOk {
        return Err(LintBlocked);
      }
      var created := snapshots.Create(current, appliedBy, a.now);
      var id: string;
      if created.Some? {
        id := created.value.id;
      } else {
        var list := transport.ReadSnapshotsDir();
        if |list| == 0 {
          return Err(NoSnapshot);
        }
        id := list[0].id;
      }
      if !a.preflightOk {
        return Err(PreflightFailed);
      }
      var content := WriteContent(draft.value, current);
      r := match content
           case Err(missing) => Err(VaultMissingSecret(missing))
           case Ok(n) => Ok(Staging(id, n));
    }

    method RunPipeline(draft: Option<Node>, appliedBy: AppliedBy, a: Answers, inner: Answers)
      returns (result: Result<string, DeployError>, ghost writes: seq<Node>, ghost nested: nat)
      requires Wired()
      modifies transport, vault
      ensures Run(snapshots.State(), result, writes, nested) == Deploy(env, settings, old(snapshots.State()), draft, appliedBy, a, inner)
      decreases if appliedBy == User then 2 else 0
    {
      writes, nested := [], 0;
      var current := transport.live;
      var hash := env.sha(current);
      var staged := Stage(draft, current, appliedBy, a);
      if staged.Err? {
        return Err(staged.error), [], 0;
      }
      var content := staged.value.content;
      var written := transport.WriteVerified(content, hash);
      if !written {
        result := Err(ChangedExternally);
        return;
      }
      writes := [content];
      if !a.reloadOk {
        return Err(ReloadFailed), writes, 0;
      }
      if !settings.healthcheck || a.health.Healthy? {
        return Ok(staged.value.snapshotId), writes, 0;
      }
      var phase := FailedPhase(a.health);
      var isRollbackPath := appliedBy == Rollback || appliedBy == AutoRollback || appliedBy == Canonicalization;
      if isRollbackPath || !settings.rollbackHook || !(phase == Some(1) || (phase == Some(3) && settings.autoRollback)) {
        return Err(HealthcheckFailed(phase, None, None)), writes, 0;
      }
      // the hook builds a context of its own for the rollback
      var sysCtx := new DeployContext(env, settings, snapshots);
      var rolledBack, more, deeper := sysCtx.RollBack(staged.value.snapshotId, true, inner, inner);
      result := match rolledBack
                case Ok(newId) => Err(HealthcheckFailed(phase, Some(newId), None))
                case Err(e) => Err(HealthcheckFailed(phase, None, Some(e)));
      writes := writes + more;
      nested := 1 + deeper;
    }

    method RollBack(id: string, auto: bool, a: Answers, inner: Answers)
      returns (result: Result<string, DeployError>, ghost writes: seq<Node>, ghost nested: nat)
      requires Wired()
      modifies transport, vault, `autoRollbackDepth
      ensures (Run(snapshots.State(), result, writes, nested), autoRollbackDepth)
              == ApplyRollback(env, settings, old(snapshots.State()), id, auto, old(autoRollbackDepth), a, inner)
      decreases 1
    {
      writes, nested := [], 0;
      if auto {
        autoRollbackDepth := autoRollbackDepth + 1;
        if autoRollbackDepth > 1 {
          autoRollbackDepth := 0;
          return Err(RollbackRecursion), [], 0;
        }
      }
      var snap := Find(transport.dir, id);
      if snap.None? {
        result := Err(UnknownSnapshot(id));
      } else {
        var doc := Parse(snap.value.masked);
        var missing := vault.UnmaskDoc(doc);
        if missing.Some? {
          result := Err(VaultMissingSecret(missing.value));
        } else {
          result, writes, nested := RunPipeline(Some(View(doc)), if auto then AutoRollback else Rollback, a, inner);
        }
      }
      if auto {
        autoRollbackDepth := autoRollbackDepth - 1;
      }
    }
  }
}
