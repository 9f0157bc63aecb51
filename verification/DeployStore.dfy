// What the operator sees: the notices a run sends (apps/server/src/deploy/pipeline.ts,
// apps/server/src/routes/deploy.ts, apps/server/src/routes/sse.ts) and the store that
// folds them (apps/web/src/stores/deploy.ts).
module DeployStore {
  import opened Outcome
  import opened Yaml
  import opened Mask
  import opened VaultStore
  import opened Snapshots
  import opened Pipeline
  import opened Deploys
  import opened Runs
  import opened VaultFacts
  import opened MaskLaws

  datatype StepId = DiffStep | LintStep | SnapshotStep | PreflightStep | WriteReloadStep | HealthcheckStep | RollbackStep

  datatype Progress = Running | Completed | Failed

  datatype Notice =
    | StepNotice(id: StepId, progress: Progress)
    | DoneNotice(snapshotId: string)
    | ErrorNotice(code: Option<string>, details: Option<DeployError>)

  // ----- the notices of a run -----

  function Of(id: StepId, progress: Progress): seq<Notice> {
    [StepNotice(id, progress)]
  }

  // Progress of the healthcheck phases: phases of a run, more of one nested in it.
  function Phases(n: nat): seq<Notice> {
    if n == 0 then [] else Of(HealthcheckStep, Running) + Phases(n - 1)
  }

  function StagedNotices(env: Env, s: Server, draft: Option<Node>, appliedBy: AppliedBy, a: Answers): seq<Notice> {
    if draft.None? then Of(DiffStep, Running) + Of(DiffStep, Failed) + Of(LintStep, Failed)
    else
      Of(DiffStep, Running) + Of(DiffStep, Completed) + Of(LintStep, Running)
      + if !a.lintOk then Of(LintStep, Failed)
        else
          Of(LintStep, Completed) + Of(SnapshotStep, Running)
          + var e := Staged(env, s, draft, appliedBy, a).1;
            if e.Err? && e.error.NoSnapshot? then Of(SnapshotStep, Failed)
            else
              Of(SnapshotStep, Completed) + Of(PreflightStep, Running)
              + if !a.preflightOk then Of(PreflightStep, Failed)
                else Of(PreflightStep, Completed) + Of(WriteReloadStep, Running)
                     + if e.Err? then Of(WriteReloadStep, Failed) else []
  }

  function DeployNotices(env: Env, st: Settings, s: Server, draft: Option<Node>, appliedBy: AppliedBy, a: Answers, nested: Answers, phases: nat, more: nat): seq<Notice>
    decreases if appliedBy == User then 2 else 0
  {
    var staged := Staged(env, s, draft, appliedBy, a);
    StagedNotices(env, s, draft, appliedBy, a)
    + if staged.1.Err? then []
      else
        match VerifyAndWrite(env, staged.0.live, staged.1.value.content, env.sha(s.live))
        case None => Of(WriteReloadStep, Failed)
        case Some(live) => SettledNotices(env, st, staged.0.(live := live), staged.1.value.snapshotId, appliedBy, a, nested, phases, more)
  }

  function SettledNotices(env: Env, st: Settings, s: Server, id: string, appliedBy: AppliedBy, a: Answers, nested: Answers, phases: nat, more: nat): seq<Notice>
    decreases if appliedBy == User then 2 else 0, 0
  {
    if !a.reloadOk then Of(WriteReloadStep, Failed)
    else
      Of(WriteReloadStep, Completed)
      + if !st.healthcheck then []
        else
          Of(HealthcheckStep, Running) + Phases(phases)
          + if a.health.Healthy? then Of(HealthcheckStep, Completed)
            else
              Of(HealthcheckStep, Failed)
              + if !ShouldRollBack(st, appliedBy, FailedPhase(a.health)) then []
                else
                  Of(RollbackStep, Running)
                  + RollbackNotices(env, st, s, id, nested, more)
                  + Of(RollbackStep, if ApplyRollback(env, st, s, id, true, 0, nested, nested).0.result.Ok? then Completed else Failed)
  }

  // The notices of the run nested in an auto-rollback; they use the same step ids.
  function RollbackNotices(env: Env, st: Settings, s: Server, id: string, a: Answers, phases: nat): seq<Notice>
    decreases 1
  {
    match Find(s.dir, id)
    case None => []
    case Some(snap) =>
      match Unmask(snap.masked, ValuesOf(s.vault.entries))
      case Err(_) => []
      case Ok(draft) => DeployNotices(env, st, s, Some(draft), AutoRollback, a, a, phases, phases)
  }

  // The code an error carries, if its class has one.
  function CodeOf(e: DeployError): Option<string> {
    match e
    case LintBlocked => Some("LINT_BLOCKED")
    case PreflightFailed => Some("PREFLIGHT_FAILED")
    case ChangedExternally => Some("CONFIG_CHANGED_EXTERNALLY")
    case ReloadFailed => Some("WRITE_RELOAD_FAILED")
    case HealthcheckFailed(_, _, _) => Some("HEALTHCHECK_FAILED")
    case UnknownSnapshot(_) => Some("ENOENT")
    case _ => None
  }

  // After the steps: one notice for a success, two for a failure. The first, from the
  // route, carries the details; the second, from the stream helper, only a code.
  function ResultNotices(result: Result<string, DeployError>): seq<Notice> {
    match result
    case Ok(id) => [DoneNotice(id)]
    case Err(e) =>
      [ErrorNotice(Some(CodeOr(e, "DEPLOY_FAILED")), Some(e)), ErrorNotice(Some(CodeOr(e, "UNKNOWN")), None)]
  }

  function CodeOr(e: DeployError, fallback: string): string {
    if CodeOf(e).Some? then CodeOf(e).value else fallback
  }

  function RunNotices(env: Env, st: Settings, s: Server, draft: Option<Node>, a: Answers, nested: Answers, phases: nat, more: nat): seq<Notice> {
    DeployNotices(env, st, s, draft, User, a, nested, phases, more) + ResultNotices(Deploy(env, st, s, draft, User, a, nested).result)
  }

  // ----- the store -----

  datatype StepStatus = Pending | Active | Passed | Broken | Skipped

  datatype Step = Step(id: StepId, status: StepStatus)

  datatype Shown = Shown(code: string, details: Option<DeployError>)

  datatype Screen = Screen(running: bool, steps: seq<Step>, error: Option<Shown>, lastSnapshotId: Option<string>, completed: bool)

  const INITIAL_STEPS: seq<Step> := [
    Step(DiffStep, Pending), Step(LintStep, Pending), Step(SnapshotStep, Pending),
    Step(PreflightStep, Pending), Step(WriteReloadStep, Pending), Step(HealthcheckStep, Pending)]

  function StatusFor(p: Progress): StepStatus {
    match p
    case Running => Active
    case Completed => Passed
    case Failed => Broken
  }

  // Sets the first step with the id; a rollback step is added when there is none.
  function SetStep(steps: seq<Step>, id: StepId, status: StepStatus): seq<Step> {
    if steps == [] then if id == RollbackStep then [Step(id, status)] else []
    else if steps[0].id == id then [Step(id, status)] + steps[1..]
    else [steps[0]] + SetStep(steps[1..], id, status)
  }

  lemma SetStepEnds(steps: seq<Step>, id: StepId, status: StepStatus)
    ensures SetStep(steps, id, status) == steps[..0] + SetStep(steps[0..], id, status)
    ensures steps[..|steps|] + SetStep(steps[|steps|..], id, status) == if id == RollbackStep then steps + [Step(id, status)] else steps
  {
  }

  lemma SetStepFrom(steps: seq<Step>, i: nat, id: StepId, status: StepStatus)
    requires i < |steps|
    ensures steps[..i] + SetStep(steps[i..], id, status) ==
            if steps[i].id == id then steps[..i] + [Step(id, status)] + steps[i + 1..]
            else steps[..i + 1] + SetStep(steps[i + 1..], id, status)
  {
    hide SetStep;
    SetStepUnfold(steps, i, id, status);
    assert steps[..i + 1] == steps[..i] + [steps[i]];
  }

  lemma SetStepUnfold(steps: seq<Step>, i: nat, id: StepId, status: StepStatus)
    requires i < |steps|
    ensures SetStep(steps[i..], id, status) ==
            if steps[i].id == id then [Step(id, status)] + steps[i + 1..]
            else [steps[i]] + SetStep(steps[i + 1..], id, status)
  {
    assert steps[i..][1..] == steps[i + 1..];
  }

  // Every step of one status gets another.
  function Turn(steps: seq<Step>, from: StepStatus, to: StepStatus): seq<Step> {
    if steps == [] then []
    else [TurnStep(steps[0], from, to)] + Turn(steps[1..], from, to)
  }

  lemma TurnNone(from: StepStatus, to: StepStatus)
    ensures Turn([], from, to) == []
  {
  }

  lemma TurnFrom(steps: seq<Step>, i: nat, from: StepStatus, to: StepStatus, before: seq<Step>)
    requires i < |steps|
    ensures before + Turn(steps[i..], from, to) == before + [TurnStep(steps[i], from, to)] + Turn(steps[i + 1..], from, to)
  {
    hide TurnStep;
    assert steps[i..][1..] == steps[i + 1..];
  }

  function TurnStep(step: Step, from: StepStatus, to: StepStatus): Step {
    if step.status == from then step.(status := to) else step
  }

  function Fold(v: Screen, n: Notice): Screen {
    match n
    case StepNotice(id, progress) => v.(steps := SetStep(v.steps, id, StatusFor(progress)))
    case DoneNotice(id) =>
      v.(lastSnapshotId := Some(id), completed := true, running := false, steps := Turn(v.steps, Pending, Skipped))
    case ErrorNotice(code, details) =>
      v.(error := Some(Shown(if code.Some? then code.value else "DEPLOY_FAILED", details)), running := false,
         steps := Turn(v.steps, Active, Broken))
  }

  function FoldAll(v: Screen, notices: seq<Notice>): Screen
    decreases |notices|
  {
    if notices == [] then v else FoldAll(Fold(v, notices[0]), notices[1..])
  }

  class Store {
    var running: bool
    var steps: seq<Step>
    var error: Option<Shown>
    var lastSnapshotId: Option<string>
    var completed: bool

    constructor ()
      ensures State() == Screen(false, INITIAL_STEPS, None, None, false)
    {
      running, steps, error, lastSnapshotId, completed := false, INITIAL_STEPS, None, None, false;
    }

    function State(): Screen
      reads this
    {
      Screen(running, steps, error, lastSnapshotId, completed)
    }

    method Start()
      modifies this
      ensures State() == STARTED
    {
      running, steps, error, lastSnapshotId, completed := true, INITIAL_STEPS, None, None, false;
    }

    method PutStep(id: StepId, status: StepStatus)
      modifies `steps
      ensures steps == SetStep(old(steps), id, status)
    {
      var list := steps;
      hide SetStep;
      SetStepEnds(list, id, status);
      for i := 0 to |list|
        invariant steps == list && SetStep(list, id, status) == list[..i] + SetStep(list[i..], id, status)
      {
        SetStepFrom(list, i, id, status);
        if list[i].id == id {
          steps := list[..i] + [Step(id, status)] + list[i + 1..];
          return;
        }
      }
      if id == RollbackStep {
        steps := list + [Step(id, status)];
      }
    }

    method TurnSteps(from: StepStatus, to: StepStatus)
      modifies `steps
      ensures steps == Turn(old(steps), from, to)
    {
      var list, turned := steps, [];
      hide TurnStep, Turn;
      TurnNone(from, to);
      assert list[0..] == list && list[|list|..] == [];
      for i := 0 to |list|
        invariant turned + Turn(list[i..], from, to) == Turn(list, from, to)
      {
        TurnFrom(list, i, from, to, turned);
        turned := turned + [TurnStep(list[i], from, to)];
      }
      steps := turned;
    }

    method Handle(n: Notice)
      modifies this
      ensures State() == Fold(old(State()), n)
    {
      match n
      case StepNotice(id, progress) => PutStep(id, StatusFor(progress));
      case DoneNotice(id) =>
        lastSnapshotId := Some(id);
        completed := true;
        running := false;
        TurnSteps(Pending, Skipped);
      case ErrorNotice(code, details) =>
        error := Some(Shown(if code.Some? then code.value else "DEPLOY_FAILED", details));
        running := false;
        TurnSteps(Active, Broken);
    }

    method HandleAll(notices: seq<Notice>)
      modifies this
      ensures State() == FoldAll(old(State()), notices)
    {
      for i := 0 to |notices|
        invariant FoldAll(State(), notices[i..]) == FoldAll(old(State()), notices)
      {
        Handle(notices[i]);
      }
    }

    // One run as it is followed on the screen, from the request to the end of the stream;
    // a request while another run is followed does nothing.
    method Follow(notices: seq<Notice>)
      modifies this
      ensures State() == if old(running) then old(State()) else FoldAll(STARTED, notices)
    {
      if running {
        return;
      }
      Start();
      HandleAll(notices);
    }
  }

  // ----- folding step notices -----

  function StatusOf(steps: seq<Step>, id: StepId): Option<StepStatus> {
    if steps == [] then None
    else if steps[0].id == id then Some(steps[0].status)
    else StatusOf(steps[1..], id)
  }

  ghost predicate OnlySteps(notices: seq<Notice>) {
    notices != [] ==> notices[0].StepNotice? && OnlySteps(notices[1..])
  }

  // The last progress reported for a step.
  function Last(notices: seq<Notice>, id: StepId): Option<Progress> {
    if notices == [] then None
    else
      var rest := Last(notices[1..], id);
      if rest.Some? then rest
      else if notices[0].StepNotice? && notices[0].id == id then Some(notices[0].progress)
      else None
  }

  lemma {:induction false} FoldSplit(v: Screen, a: seq<Notice>, b: seq<Notice>)
    ensures FoldAll(v, a + b) == FoldAll(FoldAll(v, a), b)
    decreases |a|
  {
    hide Fold;
    if a == [] {
      assert a + b == b;
    } else {
      assert (a + b)[1..] == a[1..] + b;
      FoldSplit(Fold(v, a[0]), a[1..], b);
    }
  }

  lemma {:induction false} LastSplit(a: seq<Notice>, b: seq<Notice>, id: StepId)
    ensures Last(a + b, id) == if Last(b, id).Some? then Last(b, id) else Last(a, id)
    decreases |a|
  {
    if a == [] {
      assert a + b == b;
    } else {
      assert (a + b)[1..] == a[1..] + b;
      LastSplit(a[1..], b, id);
    }
  }

  lemma {:induction false} OnlyStepsSplit(a: seq<Notice>, b: seq<Notice>)
    ensures OnlySteps(a + b) <==> OnlySteps(a) && OnlySteps(b)
    decreases |a|
  {
    if a == [] {
      assert a + b == b;
    } else {
      assert (a + b)[1..] == a[1..] + b;
      OnlyStepsSplit(a[1..], b);
    }
  }

  lemma {:induction false} SetStepStatus(steps: seq<Step>, id: StepId, status: StepStatus, k: StepId)
    ensures StatusOf(SetStep(steps, id, status), k) ==
            if k == id && (StatusOf(steps, k).Some? || id == RollbackStep) then Some(status) else StatusOf(steps, k)
  {
    if steps != [] {
      SetStepStatus(steps[1..], id, status, k);
      var after := SetStep(steps, id, status);
      assert after[1..] == if steps[0].id == id then steps[1..] else SetStep(steps[1..], id, status);
    }
  }

  // Step notices change the steps only, and each step shows the last of its notices.
  lemma {:induction false} FoldSteps(v: Screen, notices: seq<Notice>, k: StepId)
    requires OnlySteps(notices) && (StatusOf(v.steps, k).Some? || k == RollbackStep)
    ensures var w := FoldAll(v, notices);
            && w == v.(steps := w.steps)
            && StatusOf(w.steps, k) ==
               match Last(notices, k)
               case Some(p) => Some(StatusFor(p))
               case None => StatusOf(v.steps, k)
    decreases |notices|
  {
    hide SetStep, StatusOf, StatusFor;
    if notices != [] {
      SetStepStatus(v.steps, notices[0].id, StatusFor(notices[0].progress), k);
      FoldSteps(Fold(v, notices[0]), notices[1..], k);
    }
  }

  lemma {:induction false} TurnStatus(steps: seq<Step>, from: StepStatus, to: StepStatus, k: StepId)
    ensures StatusOf(Turn(steps, from, to), k) ==
            match StatusOf(steps, k)
            case Some(s) => Some(if s == from then to else s)
            case None => None
  {
    if steps != [] {
      TurnStatus(steps[1..], from, to, k);
    }
  }

  lemma InitialStatus(k: StepId)
    ensures StatusOf(INITIAL_STEPS, k) == if k == RollbackStep then None else Some(Pending)
  {
    assert INITIAL_STEPS[1..][1..][1..][1..][1..][1..] == [];
  }

  // ----- what each part of a run reports last -----

  lemma LastOf(id: StepId, p: Progress, k: StepId)
    ensures Last(Of(id, p), k) == if k == id then Some(p) else None
    ensures OnlySteps(Of(id, p))
  {
  }

  lemma {:induction false} LastPhases(n: nat, k: StepId)
    ensures OnlySteps(Phases(n))
    ensures Last(Phases(n), k) == if n > 0 && k == HealthcheckStep then Some(Running) else None
  {
    if n > 0 {
      LastPhases(n - 1, k);
      LastOf(HealthcheckStep, Running, k);
      LastSplit(Of(HealthcheckStep, Running), Phases(n - 1), k);
      OnlyStepsSplit(Of(HealthcheckStep, Running), Phases(n - 1));
    }
  }

  // The last report of a part, followed by another notice.
  lemma LastThen(a: seq<Notice>, id: StepId, p: Progress, k: StepId)
    requires OnlySteps(a)
    ensures OnlySteps(a + Of(id, p))
    ensures Last(a + Of(id, p), k) == if k == id then Some(p) else Last(a, k)
  {
    LastOf(id, p, k);
    LastSplit(a, Of(id, p), k);
    OnlyStepsSplit(a, Of(id, p));
  }

  lemma LastBoth(a: seq<Notice>, b: seq<Notice>, k: StepId)
    requires OnlySteps(a) && OnlySteps(b)
    ensures OnlySteps(a + b)
    ensures Last(a + b, k) == if Last(b, k).Some? then Last(b, k) else Last(a, k)
  {
    LastSplit(a, b, k);
    OnlyStepsSplit(a, b);
  }

  // ----- what each step comes to -----

  function Ended(ok: bool): Progress {
    if ok then Completed else Failed
  }

  // What a run reports last for a step of its own, in terms of what it met.
  function OwnLast(env: Env, st: Settings, s: Server, draft: Option<Node>, appliedBy: AppliedBy, a: Answers, k: StepId): Option<Progress> {
    if draft.None? then if k == DiffStep || k == LintStep then Some(Failed) else None
    else
      var written := a.lintOk && a.preflightOk && ResolvedDraft(env, s, draft, appliedBy, a).Ok?;
      match k
      case DiffStep => Some(Completed)
      case LintStep => Some(Ended(a.lintOk))
      case SnapshotStep => if a.lintOk then Some(Completed) else None
      case PreflightStep => if a.lintOk then Some(Ended(a.preflightOk)) else None
      case WriteReloadStep => if a.lintOk && a.preflightOk then Some(Ended(written && a.reloadOk)) else None
      case HealthcheckStep => if written && a.reloadOk && st.healthcheck then Some(Ended(a.health.Healthy?)) else None
      case RollbackStep => None
  }

  // The draft a rollback hands to its pipeline, if it gets that far.
  function RestoredDraft(s: Server, id: string): Option<Node> {
    match Find(s.dir, id)
    case None => None
    case Some(snap) =>
      match Unmask(snap.masked, ValuesOf(s.vault.entries))
      case Err(_) => None
      case Ok(draft) => Some(draft)
  }

  // The server and the draft the nested run starts from, if one starts.
  function NestedStart(env: Env, st: Settings, s: Server, draft: Option<Node>, appliedBy: AppliedBy, a: Answers): Option<(Server, Node)> {
    var staged := Staged(env, s, draft, appliedBy, a);
    if staged.1.Ok? && RollsBack(st, appliedBy, a) then
      var t := staged.0.(live := staged.1.value.content);
      match RestoredDraft(t, staged.1.value.snapshotId)
      case Some(d) => Some((t, d))
      case None => None
    else None
  }

  // What the nested run reports last for a step, if it reports it.
  function NestedLast(env: Env, st: Settings, s: Server, draft: Option<Node>, appliedBy: AppliedBy, a: Answers, nested: Answers, k: StepId): Option<Progress> {
    match NestedStart(env, st, s, draft, appliedBy, a)
    case Some((t, d)) => OwnLast(env, st, t, Some(d), AutoRollback, nested, k)
    case None => None
  }

  // Before the write: the steps up to the failing one are reported, and none of the
  // steps reported is left running but the write, when the run goes on.
  lemma StagedLast(env: Env, st: Settings, s: Server, draft: Option<Node>, appliedBy: AppliedBy, a: Answers, k: StepId)
    ensures OnlySteps(StagedNotices(env, s, draft, appliedBy, a))
    ensures var last := Last(StagedNotices(env, s, draft, appliedBy, a), k);
            if Staged(env, s, draft, appliedBy, a).1.Ok? then
              last == if k == WriteReloadStep then Some(Running)
                      else if k == HealthcheckStep || k == RollbackStep then None
                      else Some(Completed)
            else last == OwnLast(env, st, s, draft, appliedBy, a, k)
  {
    hide Staged, Last, OnlySteps, Of, ResolvedDraft;
    StagedFacts(env, s, draft, appliedBy, a);
    LastOf(DiffStep, Running, k);
    var e := Staged(env, s, draft, appliedBy, a).1;
    if draft.None? {
      LastThen(Of(DiffStep, Running), DiffStep, Failed, k);
      LastThen(Of(DiffStep, Running) + Of(DiffStep, Failed), LintStep, Failed, k);
    } else {
      LastThen(Of(DiffStep, Running), DiffStep, Completed, k);
      LastThen(Of(DiffStep, Running) + Of(DiffStep, Completed), LintStep, Running, k);
      var n1 := Of(DiffStep, Running) + Of(DiffStep, Completed) + Of(LintStep, Running);
      if !a.lintOk {
        LastThen(n1, LintStep, Failed, k);
      } else {
        var r2 := if !a.preflightOk then Of(PreflightStep, Failed)
                  else Of(PreflightStep, Completed) + Of(WriteReloadStep, Running) + if e.Err? then Of(WriteReloadStep, Failed) else [];
        LastOf(PreflightStep, Failed, k);
        PreflightLast(e.Err?, k);
        LastOf(SnapshotStep, Completed, k);
        LastThen(Of(SnapshotStep, Completed), PreflightStep, Running, k);
        LastBoth(Of(SnapshotStep, Completed) + Of(PreflightStep, Running), r2, k);
        var r1 := Of(SnapshotStep, Completed) + Of(PreflightStep, Running) + r2;
        LastOf(LintStep, Completed, k);
        LastThen(Of(LintStep, Completed), SnapshotStep, Running, k);
        LastBoth(Of(LintStep, Completed) + Of(SnapshotStep, Running), r1, k);
        LastBoth(n1, Of(LintStep, Completed) + Of(SnapshotStep, Running) + r1, k);
      }
    }
  }

  lemma PreflightLast(failed: bool, k: StepId)
    ensures var r := Of(PreflightStep, Completed) + Of(WriteReloadStep, Running) + if failed then Of(WriteReloadStep, Failed) else [];
            && OnlySteps(r)
            && Last(r, k) == if k == PreflightStep then Some(Completed)
                             else if k == WriteReloadStep then Some(if failed then Failed else Running)
                             else None
  {
    hide Last, OnlySteps, Of;
    LastNone(k);
    LastOf(PreflightStep, Completed, k);
    LastOf(WriteReloadStep, Failed, k);
    LastThen(Of(PreflightStep, Completed), WriteReloadStep, Running, k);
    LastBoth(Of(PreflightStep, Completed) + Of(WriteReloadStep, Running), if failed then Of(WriteReloadStep, Failed) else [], k);
  }

  lemma LastNone(k: StepId)
    ensures Last([], k) == None && OnlySteps([])
  {
  }

  // What a whole run reports last for a step: what the nested run does, if it reports
  // the step, and otherwise what the steps of its own come to.
  lemma DeployLast(env: Env, st: Settings, s: Server, draft: Option<Node>, appliedBy: AppliedBy, a: Answers, nested: Answers, phases: nat, more: nat, k: StepId)
    ensures var notices := DeployNotices(env, st, s, draft, appliedBy, a, nested, phases, more);
            var r := Deploy(env, st, s, draft, appliedBy, a, nested);
            var inner := NestedLast(env, st, s, draft, appliedBy, a, nested, k);
            && OnlySteps(notices)
            && Last(notices, k) ==
               if k == RollbackStep then if r.nested == 1 then Some(Ended(RolledBack(r.result))) else None
               else if inner.Some? then inner
               else OwnLast(env, st, s, draft, appliedBy, a, k)
    decreases if appliedBy == User then 2 else 0
  {
    hide Staged, StagedNotices, SettledNotices, Settled, Last, OnlySteps, Of, ResolvedDraft, RestoredDraft;
    StagedLast(env, st, s, draft, appliedBy, a, k);
    StagedFacts(env, s, draft, appliedBy, a);
    LastNone(k);
    var staged := Staged(env, s, draft, appliedBy, a);
    var first := StagedNotices(env, s, draft, appliedBy, a);
    if staged.1.Err? {
      LastBoth(first, [], k);
    } else {
      var t := staged.0.(live := staged.1.value.content);
      SettledLast(env, st, t, staged.1.value.snapshotId, appliedBy, a, nested, phases, more, k);
      LastBoth(first, SettledNotices(env, st, t, staged.1.value.snapshotId, appliedBy, a, nested, phases, more), k);
    }
  }

  lemma AroundRollback(inner: seq<Notice>, outcome: Progress, k: StepId)
    requires OnlySteps(inner)
    ensures var tail := Of(RollbackStep, Running) + inner + Of(RollbackStep, outcome);
            OnlySteps(tail) && Last(tail, k) == if k == RollbackStep then Some(outcome) else Last(inner, k)
  {
    hide Last, OnlySteps, Of;
    LastOf(RollbackStep, Running, k);
    LastBoth(Of(RollbackStep, Running), inner, k);
    LastThen(Of(RollbackStep, Running) + inner, RollbackStep, outcome, k);
  }

  // The last reports from the write on, of a run from s whose snapshot is id.
  function SettledOwn(st: Settings, a: Answers, k: StepId): Option<Progress> {
    match k
    case WriteReloadStep => Some(Ended(a.reloadOk))
    case HealthcheckStep => if a.reloadOk && st.healthcheck then Some(Ended(a.health.Healthy?)) else None
    case _ => None
  }

  lemma SettledLast(env: Env, st: Settings, s: Server, id: string, appliedBy: AppliedBy, a: Answers, nested: Answers, phases: nat, more: nat, k: StepId)
    ensures var notices := SettledNotices(env, st, s, id, appliedBy, a, nested, phases, more);
            var r := Settled(env, st, s, id, appliedBy, a, nested);
            var d := RestoredDraft(s, id);
            var inner := if RollsBack(st, appliedBy, a) && d.Some? then OwnLast(env, st, s, d, AutoRollback, nested, k) else None;
            && OnlySteps(notices)
            && (r.nested == 1 <==> RollsBack(st, appliedBy, a))
            && Last(notices, k) ==
               if k == RollbackStep then if RollsBack(st, appliedBy, a) then Some(Ended(RolledBack(r.result))) else None
               else if inner.Some? then inner
               else SettledOwn(st, a, k)
    decreases if appliedBy == User then 2 else 0, 0
  {
    hide Last, OnlySteps, Of, ApplyRollback, RollbackNotices, Phases, OwnLast, RestoredDraft;
    LastNone(k);
    LastOf(WriteReloadStep, Failed, k);
    LastOf(WriteReloadStep, Completed, k);
    LastBoth(Of(WriteReloadStep, Completed), [], k);
    if a.reloadOk && st.healthcheck {
      var rolls := !a.health.Healthy? && ShouldRollBack(st, appliedBy, FailedPhase(a.health));
      var tail := [];
      if rolls {
        var outcome := if ApplyRollback(env, st, s, id, true, 0, nested, nested).0.result.Ok? then Completed else Failed;
        tail := Of(RollbackStep, Running) + RollbackNotices(env, st, s, id, nested, more) + Of(RollbackStep, outcome);
        RollbackLast(env, st, s, id, nested, more, k);
        RollbackOnce(env, st, s, id, true, 0, nested, nested);
        AroundRollback(RollbackNotices(env, st, s, id, nested, more), outcome, k);
      }
      CheckedLast(phases, a.health.Healthy?, tail, k);
    }
  }

  // The notices from a reloaded write on, with what follows a failed healthcheck.
  lemma CheckedLast(phases: nat, healthy: bool, tail: seq<Notice>, k: StepId)
    requires OnlySteps(tail)
    ensures var r := Of(WriteReloadStep, Completed)
                     + (Of(HealthcheckStep, Running) + Phases(phases)
                        + if healthy then Of(HealthcheckStep, Completed) else Of(HealthcheckStep, Failed) + tail);
            && OnlySteps(r)
            && Last(r, k) == if !healthy && Last(tail, k).Some? then Last(tail, k)
                             else if k == HealthcheckStep then Some(Ended(healthy))
                             else if k == WriteReloadStep then Some(Completed)
                             else None
  {
    hide Last, OnlySteps, Of, Phases;
    LastOf(WriteReloadStep, Completed, k);
    LastOf(HealthcheckStep, Completed, k);
    LastOf(HealthcheckStep, Failed, k);
    var check := Of(HealthcheckStep, Running) + Phases(phases);
    CheckLast(phases, k);
    LastBoth(Of(HealthcheckStep, Failed), tail, k);
    var after := if healthy then Of(HealthcheckStep, Completed) else Of(HealthcheckStep, Failed) + tail;
    LastBoth(check, after, k);
    LastBoth(Of(WriteReloadStep, Completed), check + after, k);
  }

  lemma CheckLast(phases: nat, k: StepId)
    ensures var check := Of(HealthcheckStep, Running) + Phases(phases);
            OnlySteps(check) && Last(check, k) == if k == HealthcheckStep then Some(Running) else None
  {
    hide Last, OnlySteps, Of, Phases;
    LastOf(HealthcheckStep, Running, k);
    LastPhases(phases, k);
    LastBoth(Of(HealthcheckStep, Running), Phases(phases), k);
  }

  lemma RollbackLast(env: Env, st: Settings, s: Server, id: string, a: Answers, phases: nat, k: StepId)
    ensures var notices := RollbackNotices(env, st, s, id, a, phases);
            var d := RestoredDraft(s, id);
            && OnlySteps(notices)
            && Last(notices, k) == if d.Some? then OwnLast(env, st, s, d, AutoRollback, a, k) else None
    decreases 1
  {
    hide Deploy, DeployNotices, Last, OnlySteps, Unmask, Staged, ResolvedDraft;
    LastNone(k);
    match Find(s.dir, id)
    case None =>
    case Some(snap) =>
      match Unmask(snap.masked, ValuesOf(s.vault.entries))
      case Err(_) =>
      case Ok(draft) =>
        DeployLast(env, st, s, Some(draft), AutoRollback, a, a, phases, phases, k);
        NestedDeploy(env, st, s, draft, AutoRollback, a, a);
  }

  // ----- what the operator sees at the end -----

  const STARTED: Screen := Screen(true, INITIAL_STEPS, None, None, false)

  // The status a step is left with, given the last report on it.
  function FinalStatus(last: Option<Progress>, ok: bool): StepStatus {
    match last
    case Some(p) => StatusFor(p)
    case None => if ok then Skipped else Pending
  }

  // Every step at the end of every run: the nested run's last report on it, if there is
  // one, and otherwise what the run's own step came to. The rollback step is there
  // exactly when a rollback was started, and shows whether it came up.
  lemma FinalSteps(env: Env, st: Settings, s: Server, draft: Option<Node>, a: Answers, nested: Answers, phases: nat, more: nat, k: StepId)
    ensures var r := Deploy(env, st, s, draft, User, a, nested);
            var v := FoldAll(STARTED, RunNotices(env, st, s, draft, a, nested, phases, more));
            var inner, own := NestedLast(env, st, s, draft, User, a, nested, k), OwnLast(env, st, s, draft, User, a, k);
            StatusOf(v.steps, k) ==
              if k == RollbackStep then if r.nested == 1 then Some(StatusFor(Ended(RolledBack(r.result)))) else None
              else Some(FinalStatus(if inner.Some? then inner else own, r.result.Ok?))
  {
    hide Deploy, DeployNotices, Last, OnlySteps, SetStep, StatusOf, Turn, CodeOr, INITIAL_STEPS, NestedLast, OwnLast, ResolvedDraft;
    var r := Deploy(env, st, s, draft, User, a, nested);
    var notices := DeployNotices(env, st, s, draft, User, a, nested, phases, more);
    DeployLast(env, st, s, draft, User, a, nested, phases, more, k);
    NeverRunning(env, st, s, draft, a, nested, k);
    OneDeploy(env, st, s, draft, User, a, nested);
    InitialStatus(k);
    FoldSteps(STARTED, notices, k);
    FoldSplit(STARTED, notices, ResultNotices(r.result));
    var v := FoldAll(STARTED, notices);
    match r.result
    case Ok(id) =>
      FoldOne(v, DoneNotice(id));
      TurnStatus(v.steps, Pending, Skipped, k);
    case Err(e) =>
      var first, second := ErrorNotice(Some(CodeOr(e, "DEPLOY_FAILED")), Some(e)), ErrorNotice(Some(CodeOr(e, "UNKNOWN")), None);
      FoldTwo(v, first, second);
      TurnStatus(v.steps, Active, Broken, k);
      TurnStatus(Turn(v.steps, Active, Broken), Active, Broken, k);
  }

  lemma NeverRunning(env: Env, st: Settings, s: Server, draft: Option<Node>, a: Answers, nested: Answers, k: StepId)
    ensures NestedLast(env, st, s, draft, User, a, nested, k) != Some(Running)
    ensures OwnLast(env, st, s, draft, User, a, k) != Some(Running)
  {
    hide NestedStart, ResolvedDraft;
  }

  // Steps are all that step notices change; what comes after them decides the rest.
  lemma FinalRest(env: Env, st: Settings, s: Server, draft: Option<Node>, a: Answers, nested: Answers, phases: nat, more: nat)
    ensures var r := Deploy(env, st, s, draft, User, a, nested);
            var v := FoldAll(STARTED, RunNotices(env, st, s, draft, a, nested, phases, more));
            && !v.running
            && (v.completed <==> r.result.Ok?) && (v.error.None? <==> r.result.Ok?)
            && (r.result.Ok? ==> v.lastSnapshotId == Some(r.result.value))
            && (r.result.Err? ==> v.error == Some(Shown(CodeOr(r.result.error, "UNKNOWN"), None)))
  {
    hide Deploy, DeployNotices, Last, OnlySteps, SetStep, StatusOf, Turn, CodeOr, INITIAL_STEPS;
    var r := Deploy(env, st, s, draft, User, a, nested);
    var notices := DeployNotices(env, st, s, draft, User, a, nested, phases, more);
    DeployLast(env, st, s, draft, User, a, nested, phases, more, RollbackStep);
    FoldSteps(STARTED, notices, RollbackStep);
    FoldSplit(STARTED, notices, ResultNotices(r.result));
    var v := FoldAll(STARTED, notices);
    match r.result
    case Ok(id) => FoldOne(v, DoneNotice(id));
    case Err(e) => FoldTwo(v, ErrorNotice(Some(CodeOr(e, "DEPLOY_FAILED")), Some(e)), ErrorNotice(Some(CodeOr(e, "UNKNOWN")), None));
  }

  // The nested run writes exactly when it starts, its lint and preflight pass, and its
  // draft resolves.
  lemma NestedWrites(env: Env, st: Settings, s: Server, draft: Option<Node>, a: Answers, nested: Answers)
    ensures var r := Deploy(env, st, s, draft, User, a, nested);
            match NestedStart(env, st, s, draft, User, a)
            case Some((t, d)) =>
              && r.nested == 1
              && (|r.writes| == 2 <==> nested.lintOk && nested.preflightOk && ResolvedDraft(env, t, Some(d), AutoRollback, nested).Ok?)
            case None => |r.writes| <= 1
  {
    hide Staged, ResolvedDraft, Unmask, Find;
    StagedFacts(env, s, draft, User, a);
    OneDeploy(env, st, s, draft, User, a, nested);
    match NestedStart(env, st, s, draft, User, a)
    case Some((t, d)) => NestedDeploy(env, st, t, d, AutoRollback, nested, nested);
    case None =>
  }

  // At the end of every run the store has stopped, no step is shown as running, and it
  // shows a success exactly when the run succeeded. A failed run shows its healthcheck as
  // passed exactly when a rollback is reported.
  lemma EveryRunSettles(env: Env, st: Settings, s: Server, draft: Option<Node>, a: Answers, nested: Answers, phases: nat, more: nat, k: StepId)
    ensures var r := Deploy(env, st, s, draft, User, a, nested);
            var v := FoldAll(STARTED, RunNotices(env, st, s, draft, a, nested, phases, more));
            && !v.running
            && StatusOf(v.steps, k) != Some(Active)
            && (v.completed <==> r.result.Ok?) && (v.error.None? <==> r.result.Ok?)
            && (r.result.Ok? ==> v.lastSnapshotId == Some(r.result.value))
            && (r.result.Ok? && k != RollbackStep && (k == HealthcheckStep ==> st.healthcheck) ==> StatusOf(v.steps, k) == Some(Passed))
            && (r.result.Err? ==> v.error == Some(Shown(CodeOr(r.result.error, "UNKNOWN"), None)))
            && (r.result.Err? ==> (StatusOf(v.steps, HealthcheckStep) == Some(Passed) <==> RolledBack(r.result)))
  {
    hide Deploy, RunNotices, FoldAll, StatusOf, CodeOr, ResolvedDraft, NestedStart;
    FinalSteps(env, st, s, draft, a, nested, phases, more, k);
    FinalSteps(env, st, s, draft, a, nested, phases, more, HealthcheckStep);
    FinalRest(env, st, s, draft, a, nested, phases, more);
    NeverRunning(env, st, s, draft, a, nested, k);
    NestedWrites(env, st, s, draft, a, nested);
    OneDeploy(env, st, s, draft, User, a, nested);
  }

  // The screen shows the run's own steps.
  ghost predicate ShowsOwnSteps(env: Env, st: Settings, s: Server, draft: Option<Node>, a: Answers, nested: Answers, phases: nat, more: nat) {
    var v := FoldAll(STARTED, RunNotices(env, st, s, draft, a, nested, phases, more));
    var ok := Deploy(env, st, s, draft, User, a, nested).result.Ok?;
    forall k :: k != RollbackStep ==> StatusOf(v.steps, k) == Some(FinalStatus(OwnLast(env, st, s, draft, User, a, k), ok))
  }

  // It does exactly when no nested run starts, or the one that does fails as its own did,
  // in the healthcheck.
  lemma OwnStepsIff(env: Env, st: Settings, s: Server, draft: Option<Node>, a: Answers, nested: Answers, phases: nat, more: nat)
    ensures ShowsOwnSteps(env, st, s, draft, a, nested, phases, more) <==>
              || NestedStart(env, st, s, draft, User, a).None?
              || (|Deploy(env, st, s, draft, User, a, nested).writes| == 2 && nested.reloadOk && !nested.health.Healthy?)
  {
    hide Deploy, RunNotices, FoldAll, StatusOf, NestedLast, OwnLast;
    forall k
      ensures var inner := NestedLast(env, st, s, draft, User, a, nested, k);
              var own := OwnLast(env, st, s, draft, User, a, k);
              var v := FoldAll(STARTED, RunNotices(env, st, s, draft, a, nested, phases, more));
              k != RollbackStep ==>
                (StatusOf(v.steps, k) == Some(FinalStatus(own, Deploy(env, st, s, draft, User, a, nested).result.Ok?)) <==>
                   inner.None? || own == inner)
    {
      FinalSteps(env, st, s, draft, a, nested, phases, more, k);
      NeverRunning(env, st, s, draft, a, nested, k);
    }
    SameStepsIff(env, st, s, draft, a, nested);
  }

  lemma SameStepsIff(env: Env, st: Settings, s: Server, draft: Option<Node>, a: Answers, nested: Answers)
    ensures (forall k :: k != RollbackStep ==>
               var inner := NestedLast(env, st, s, draft, User, a, nested, k);
               inner.None? || OwnLast(env, st, s, draft, User, a, k) == inner) <==>
              || NestedStart(env, st, s, draft, User, a).None?
              || (|Deploy(env, st, s, draft, User, a, nested).writes| == 2 && nested.reloadOk && !nested.health.Healthy?)
  {
    hide Deploy, ResolvedDraft, NestedStart;
    NestedWrites(env, st, s, draft, a, nested);
    OneDeploy(env, st, s, draft, User, a, nested);
    if NestedStart(env, st, s, draft, User, a).Some? {
      var (t, d) := NestedStart(env, st, s, draft, User, a).value;
      assert forall k :: NestedLast(env, st, s, draft, User, a, nested, k) == OwnLast(env, st, t, Some(d), AutoRollback, nested, k);
      assert OwnLast(env, st, s, draft, User, a, LintStep) == Some(Completed);
      assert OwnLast(env, st, s, draft, User, a, PreflightStep) == Some(Completed);
      assert OwnLast(env, st, s, draft, User, a, WriteReloadStep) == Some(Completed);
      assert OwnLast(env, st, s, draft, User, a, HealthcheckStep) == Some(Failed);
    }
  }

  // On a sane server a nested run starts whenever a rollback does, unless a sentinel of
  // the document to restore does not resolve.
  lemma NestedStartsIff(env: Env, st: Settings, s: Server, draft: Option<Node>, a: Answers, nested: Answers)
    requires Distinct(env.uuid) && Sane(env, s)
    ensures var r := Deploy(env, st, s, draft, User, a, nested);
            var uuids := Staged(env, s, draft, User, a).0.vault.entries.Keys;
            && (NestedStart(env, st, s, draft, User, a).Some? <==> r.nested == 1 && Mask.Pending(s.live) <= uuids)
            && (|r.writes| == 2 <==> NestedStart(env, st, s, draft, User, a).Some? && nested.lintOk && nested.preflightOk)
  {
    hide Deploy, Staged, Unmask, ResolvedDraft, Sane, Mask.Pending, Find;
    RollbackWhenDue(env, st, s, draft, User, a, nested);
    OneDeploy(env, st, s, draft, User, a, nested);
    StagedFacts(env, s, draft, User, a);
    if Staged(env, s, draft, User, a).1.Ok? && RollsBack(st, User, a) {
      RestoresIff(env, s, draft, a);
    }
  }

  lemma RestoresIff(env: Env, s: Server, draft: Option<Node>, a: Answers)
    requires Distinct(env.uuid) && Sane(env, s) && Staged(env, s, draft, User, a).1.Ok?
    ensures var staged := Staged(env, s, draft, User, a);
            RestoredDraft(staged.0.(live := staged.1.value.content), staged.1.value.snapshotId).Some? <==>
              Mask.Pending(s.live) <= staged.0.vault.entries.Keys
  {
    hide Staged, Unmask, Mask.Pending, Masked, Holds, Sane, Secrets, Coerced, Find;
    var staged := Staged(env, s, draft, User, a);
    StagedSane(env, s, draft, User, a);
    var snap, k := StagedSnapshot(env, s, draft, a);
    SaneParts(env, staged.0);
    ValuesPlain(staged.0.vault.entries);
    UnmaskMasked(s.live, env.fields, env.uuid, k, ValuesOf(staged.0.vault.entries));
    UnmaskResolves(Coerced(s.live, env.fields), ValuesOf(staged.0.vault.entries));
    CoercedPending(s.live, env.fields);
  }

  lemma SaneParts(env: Env, s: Server)
    requires Sane(env, s)
    ensures Plain(s.vault.entries)
  {
  }

  // So there the screen shows the run's own steps exactly when no rollback was started,
  // or it could not begin, or it got as far as a failing healthcheck of its own.
  lemma OwnStepsWhen(env: Env, st: Settings, s: Server, draft: Option<Node>, a: Answers, nested: Answers, phases: nat, more: nat)
    requires Distinct(env.uuid) && Sane(env, s)
    ensures ShowsOwnSteps(env, st, s, draft, a, nested, phases, more) <==>
              || Deploy(env, st, s, draft, User, a, nested).nested == 0
              || !(Mask.Pending(s.live) <= Staged(env, s, draft, User, a).0.vault.entries.Keys)
              || (nested.lintOk && nested.preflightOk && nested.reloadOk && !nested.health.Healthy?)
  {
    hide Deploy, Staged, ShowsOwnSteps, NestedStart, Sane, Mask.Pending, ResolvedDraft;
    OwnStepsIff(env, st, s, draft, a, nested, phases, more);
    NestedStartsIff(env, st, s, draft, a, nested);
    OneDeploy(env, st, s, draft, User, a, nested);
  }

  // One input for each step that a nested run overwrites: the draft passes lint and
  // preflight, is written and reloaded, and is then found unhealthy.
  lemma OverwrittenSteps(env: Env, st: Settings, s: Server, now: int, phases: nat, more: nat)
    requires Distinct(env.uuid) && Sane(env, s) && s.live == SecretDoc("old")
    requires st.healthcheck && st.rollbackHook
    ensures var draft, a := Some(SecretDoc("new")), Answers(true, true, true, Unhealthy(Some(1)), now);
            && EndsAs(env, st, s, draft, a, Answers(false, true, true, Healthy, now), phases, more, LintStep, Broken)
            && EndsAs(env, st, s, draft, a, Answers(true, false, true, Healthy, now), phases, more, PreflightStep, Broken)
            && EndsAs(env, st, s, draft, a, Answers(true, true, false, Healthy, now), phases, more, WriteReloadStep, Broken)
            && EndsAs(env, st, s, draft, a, Answers(true, true, true, Healthy, now), phases, more, HealthcheckStep, Passed)
  {
    hide Deploy, Staged, NestedStart, Sane, SecretDoc, Mask.Pending, EndsAs;
    var draft, a := Some(SecretDoc("new")), Answers(true, true, true, Unhealthy(Some(1)), now);
    SecretDocFacts("old", env.fields);
    SecretDocFacts("new", env.fields);
    PlainWrite(env, s, SecretDoc("new"), User, a);
    OverwrittenStep(env, st, s, draft, a, Answers(false, true, true, Healthy, now), phases, more, LintStep);
    OverwrittenStep(env, st, s, draft, a, Answers(true, false, true, Healthy, now), phases, more, PreflightStep);
    OverwrittenStep(env, st, s, draft, a, Answers(true, true, false, Healthy, now), phases, more, WriteReloadStep);
    OverwrittenStep(env, st, s, draft, a, Answers(true, true, true, Healthy, now), phases, more, HealthcheckStep);
  }

  // The step ends with the status, and its own report was the opposite.
  ghost predicate EndsAs(env: Env, st: Settings, s: Server, draft: Option<Node>, a: Answers, nested: Answers, phases: nat, more: nat, k: StepId, status: StepStatus) {
    && StatusOf(FoldAll(STARTED, RunNotices(env, st, s, draft, a, nested, phases, more)).steps, k) == Some(status)
    && OwnLast(env, st, s, draft, User, a, k) == Some(Ended(status != Passed))
  }

  lemma OverwrittenStep(env: Env, st: Settings, s: Server, draft: Option<Node>, a: Answers, nested: Answers, phases: nat, more: nat, k: StepId)
    requires Distinct(env.uuid) && Sane(env, s) && Mask.Pending(s.live) == {}
    requires draft.Some? && a.lintOk && a.preflightOk && ResolvedDraft(env, s, draft, User, a).Ok? && RollsBack(st, User, a)
    requires match k
             case LintStep => !nested.lintOk
             case PreflightStep => nested.lintOk && !nested.preflightOk
             case WriteReloadStep => nested.lintOk && nested.preflightOk && !nested.reloadOk
             case HealthcheckStep => nested.lintOk && nested.preflightOk && nested.reloadOk && nested.health.Healthy?
             case _ => false
    ensures EndsAs(env, st, s, draft, a, nested, phases, more, k, if k == HealthcheckStep then Passed else Broken)
  {
    hide Deploy, Staged, NestedStart, Sane, ResolvedDraft, Mask.Pending, RunNotices, FoldAll, StatusOf;
    FinalSteps(env, st, s, draft, a, nested, phases, more, k);
    NestedStartsIff(env, st, s, draft, a, nested);
    NestedWrites(env, st, s, draft, a, nested);
    OneDeploy(env, st, s, draft, User, a, nested);
  }

  lemma FoldOne(v: Screen, n: Notice)
    ensures FoldAll(v, [n]) == Fold(v, n)
  {
    hide Fold;
    assert [n][1..] == [];
  }

  lemma FoldTwo(v: Screen, m: Notice, n: Notice)
    ensures FoldAll(v, [m, n]) == Fold(Fold(v, m), n)
  {
    hide Fold;
    assert [m, n][1..] == [n];
    FoldOne(Fold(v, m), n);
  }

  lemma {:induction false} TurnAt(steps: seq<Step>, from: StepStatus, to: StepStatus, i: nat)
    requires i < |steps|
    ensures |Turn(steps, from, to)| == |steps| && Turn(steps, from, to)[i] == TurnStep(steps[i], from, to)
  {
    if i > 0 {
      TurnAt(steps[1..], from, to, i - 1);
    } else if |steps| > 1 {
      TurnAt(steps[1..], from, to, 0);
    }
  }

  // Whatever the screen shows: an error turns the running steps to failed, and a success the
  // pending ones to skipped; every other step stays. An error without a code gets one.
  lemma ResultTurnsSteps(v: Screen, code: Option<string>, details: Option<DeployError>, id: string, i: nat)
    requires i < |v.steps|
    ensures var step, failed, done := v.steps[i], Fold(v, ErrorNotice(code, details)), Fold(v, DoneNotice(id));
            && |failed.steps| == |done.steps| == |v.steps|
            && failed.steps[i] == Step(step.id, if step.status == Active then Broken else step.status)
            && done.steps[i] == Step(step.id, if step.status == Pending then Skipped else step.status)
            && !failed.running && failed.error == Some(Shown(if code.Some? then code.value else "DEPLOY_FAILED", details))
            && !done.running && done.completed && done.lastSnapshotId == Some(id)
  {
    TurnAt(v.steps, Active, Broken, i);
    TurnAt(v.steps, Pending, Skipped, i);
    hide Turn;
  }

  // Errors of two kinds never share a code, and a kind without a code has that of no other.
  lemma CodesTellApart(e: DeployError, f: DeployError, fallback: string)
    requires fallback == "UNKNOWN" || fallback == "DEPLOY_FAILED"
    ensures CodeOr(e, fallback) == CodeOr(f, fallback) ==>
              && (e.LintBlocked? <==> f.LintBlocked?) && (e.PreflightFailed? <==> f.PreflightFailed?)
              && (e.ChangedExternally? <==> f.ChangedExternally?) && (e.ReloadFailed? <==> f.ReloadFailed?)
              && (e.HealthcheckFailed? <==> f.HealthcheckFailed?) && (e.UnknownSnapshot? <==> f.UnknownSnapshot?)
  {
  }

  // The details of a failure, such as the snapshot a rollback went back to, never reach
  // the operator: the second notice of the failure replaces the first. They would with
  // the first notice alone.
  lemma DetailsAreReplaced(v: Screen, e: DeployError)
    ensures FoldAll(v, ResultNotices(Err(e))).error == Some(Shown(CodeOr(e, "UNKNOWN"), None))
    ensures FoldAll(v, ResultNotices(Err(e))[..1]).error == Some(Shown(CodeOr(e, "DEPLOY_FAILED"), Some(e)))
  {
    var first, second := ErrorNotice(Some(CodeOr(e, "DEPLOY_FAILED")), Some(e)), ErrorNotice(Some(CodeOr(e, "UNKNOWN")), None);
    FoldTwo(v, first, second);
    FoldOne(v, first);
    assert [first, second][..1] == [first];
  }
}
