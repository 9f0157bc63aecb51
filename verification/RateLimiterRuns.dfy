// Runs of the rate limiter: housekeeping is invisible, locks last, and the number
// of guesses is bounded.
module RateLimiterRuns {
  import opened Outcome
  import opened RateLimiter
  import opened Numbers

  datatype Op =
    | Check(ip: string)
    | Fail(ip: string)
    | Success(ip: string)
    | Reset
    | Restart(prune: bool) // save, stop, and start again from the loaded file

  datatype Event = Event(op: Op, t: int)

  datatype Answer = Checked(c: CheckAnswer) | Failed(f: FailAnswer) | Silent

  datatype State = State(entries: Entries, saved: Entries)

  // One event; the cases are the contracts of the limiter's methods.
  function Step(p: Policy, s: State, e: Event): State {
    match e.op
    case Check(ip) => if View(p, s.entries, ip, e.t).None? then s.(entries := s.entries - {ip}) else s
    case Fail(ip) =>
      var after := s.entries[ip := FailedEntry(p, View(p, s.entries, ip, e.t), e.t)];
      State(after, after)
    case Success(ip) =>
      var after := s.entries - {ip};
      State(after, if ip in s.entries then after else s.saved)
    case Reset => State(map[], map[])
    case Restart(prune) => s.(entries := Pruned(p, prune, s.saved, e.t))
  }

  function AnswerOf(p: Policy, s: State, e: Event): Answer {
    match e.op
    case Check(ip) => Checked(CheckOf(View(p, s.entries, ip, e.t), e.t))
    case Fail(ip) => Failed(FailOf(p, View(p, s.entries, ip, e.t), e.t))
    case _ => Silent
  }

  ghost function StateOf(limiter: Limiter): State
    reads limiter
  {
    State(limiter.entries, limiter.saved)
  }

  // Performs one event on a limiter. On a restart, file lists the saved entries.
  method Perform(limiter: Limiter, e: Event, file: seq<RawEntry>) returns (answer: Answer)
    requires e.op.Restart? ==> Lists(file, limiter.saved)
    modifies limiter
    ensures answer == AnswerOf(limiter.policy, old(StateOf(limiter)), e)
    ensures StateOf(limiter) == Step(limiter.policy, old(StateOf(limiter)), e)
  {
    answer := Silent;
    match e.op
    case Check(ip) =>
      var checked := limiter.Check(ip, e.t);
      answer := Checked(checked);
    case Fail(ip) =>
      var failed := limiter.Fail(ip, e.t);
      answer := Failed(failed);
    case Success(ip) => limiter.Success(ip);
    case Reset => limiter.Reset();
    case Restart(prune) =>
      LoadAfterSave(limiter.policy, prune, file, limiter.saved, e.t);
      limiter.entries := Load(limiter.policy, prune, Version1(file), e.t);
  }

  function Answers(p: Policy, s: State, events: seq<Event>): seq<Answer>
    decreases |events|
  {
    if events == [] then []
    else [AnswerOf(p, s, events[0])] + Answers(p, Step(p, s, events[0]), events[1..])
  }

  function Run(p: Policy, s: State, events: seq<Event>): State
    decreases |events|
  {
    if events == [] then s else Run(p, Step(p, s, events[0]), events[1..])
  }

  // The clock never goes back.
  predicate Ordered(events: seq<Event>, from: int) {
    events != [] ==> from <= events[0].t && Ordered(events[1..], events[0].t)
  }

  // ----- equivalence of states -----

  // At time t both maps have the same live entries.
  ghost predicate Same(p: Policy, a: Entries, b: Entries, t: int) {
    forall ip :: View(p, a, ip, t) == View(p, b, ip, t)
  }

  // The saved map is as good as the current one.
  ghost predicate Consistent(p: Policy, s: State, t: int) {
    Same(p, s.entries, s.saved, t)
  }

  lemma SameLater(p: Policy, a: Entries, b: Entries, t: int, u: int)
    requires t <= u && Same(p, a, b, t)
    ensures Same(p, a, b, u)
  {
    forall ip ensures View(p, a, ip, u) == View(p, b, ip, u) {
      assert View(p, a, ip, t) == View(p, b, ip, t);
    }
  }

  // Live entries after an event, in terms of those before it.
  lemma StepView(p: Policy, s: State, e: Event, ip: string)
    requires Consistent(p, s, e.t)
    ensures View(p, Step(p, s, e).entries, ip, e.t) ==
            match e.op
            case Fail(x) =>
              if x == ip then
                var after := FailedEntry(p, View(p, s.entries, ip, e.t), e.t);
                if Expired(p, after, e.t) then None else Some(after)
              else View(p, s.entries, ip, e.t)
            case Success(x) => if x == ip then None else View(p, s.entries, ip, e.t)
            case Reset => None
            case _ => View(p, s.entries, ip, e.t)
  {
    assert View(p, s.entries, ip, e.t) == View(p, s.saved, ip, e.t);
  }

  lemma StepConsistent(p: Policy, s: State, e: Event)
    requires Consistent(p, s, e.t)
    ensures Consistent(p, Step(p, s, e), e.t)
  {
    var s' := Step(p, s, e);
    forall ip ensures View(p, s'.entries, ip, e.t) == View(p, s'.saved, ip, e.t) {
      assert View(p, s.entries, ip, e.t) == View(p, s.saved, ip, e.t);
    }
  }

  predicate IsHousekeeping(op: Op) {
    op.Check? || op.Restart?
  }

  // Equal live entries stay equal under the same event.
  lemma StepSame(p: Policy, a: State, b: State, e: Event)
    requires Consistent(p, a, e.t) && Consistent(p, b, e.t) && Same(p, a.entries, b.entries, e.t)
    ensures AnswerOf(p, a, e) == AnswerOf(p, b, e)
    ensures Same(p, Step(p, a, e).entries, Step(p, b, e).entries, e.t)
  {
    hide View, CheckOf, FailOf, FailedEntry, Expired, Step;
    forall ip ensures View(p, Step(p, a, e).entries, ip, e.t) == View(p, Step(p, b, e).entries, ip, e.t) {
      StepView(p, a, e, ip);
      StepView(p, b, e, ip);
    }
    if e.op.Check? || e.op.Fail? {
      assert View(p, a.entries, e.op.ip, e.t) == View(p, b.entries, e.op.ip, e.t);
    }
  }

  // Housekeeping changes no live entry.
  lemma HousekeepingSame(p: Policy, s: State, e: Event)
    requires Consistent(p, s, e.t) && IsHousekeeping(e.op)
    ensures Same(p, Step(p, s, e).entries, s.entries, e.t)
  {
    hide View, CheckOf, Step;
    forall ip ensures View(p, Step(p, s, e).entries, ip, e.t) == View(p, s.entries, ip, e.t) {
      StepView(p, s, e, ip);
    }
  }

  // ----- erasing housekeeping -----

  // What is left of items when the marked ones are erased.
  function Keep<T>(items: seq<T>, erased: seq<bool>): seq<T>
    requires |items| == |erased|
  {
    if items == [] then []
    else if erased[0] then Keep(items[1..], erased[1..])
    else [items[0]] + Keep(items[1..], erased[1..])
  }

  ghost predicate OnlyHousekeeping(events: seq<Event>, erased: seq<bool>)
    requires |events| == |erased|
  {
    forall i :: 0 <= i < |events| && erased[i] ==> IsHousekeeping(events[i].op)
  }

  lemma {:induction false} AnswersLength(p: Policy, s: State, events: seq<Event>)
    ensures |Answers(p, s, events)| == |events|
    decreases |events|
  {
    if events != [] {
      AnswersLength(p, Step(p, s, events[0]), events[1..]);
    }
  }

  lemma {:induction false} EraseFrom(p: Policy, a: State, b: State, events: seq<Event>, erased: seq<bool>, now: int)
    requires |events| == |erased| && OnlyHousekeeping(events, erased) && Ordered(events, now)
    requires Consistent(p, a, now) && Consistent(p, b, now) && Same(p, a.entries, b.entries, now)
    ensures |Answers(p, a, events)| == |events|
    ensures Keep(Answers(p, a, events), erased) == Answers(p, b, Keep(events, erased))
    decreases |events|
  {
    AnswersLength(p, a, events);
    if events != [] {
      hide View, Step, AnswerOf, Same;
      var e, rest := events[0], Answers(p, Step(p, a, events[0]), events[1..]);
      SameLater(p, a.entries, a.saved, now, e.t);
      SameLater(p, b.entries, b.saved, now, e.t);
      SameLater(p, a.entries, b.entries, now, e.t);
      StepConsistent(p, a, e);
      assert Answers(p, a, events)[1..] == rest;
      assert OnlyHousekeeping(events[1..], erased[1..]);
      if erased[0] {
        HousekeepingSame(p, a, e);
        SameTransitive(p, Step(p, a, e).entries, a.entries, b.entries, e.t);
        EraseFrom(p, Step(p, a, e), b, events[1..], erased[1..], e.t);
      } else {
        StepSame(p, a, b, e);
        StepConsistent(p, b, e);
        EraseFrom(p, Step(p, a, e), Step(p, b, e), events[1..], erased[1..], e.t);
        var kept := Keep(events[1..], erased[1..]);
        assert ([e] + kept)[1..] == kept;
      }
    }
  }

  lemma SameTransitive(p: Policy, a: Entries, b: Entries, c: Entries, t: int)
    requires Same(p, a, b, t) && Same(p, b, c, t)
    ensures Same(p, a, c, t)
  {
    forall ip ensures View(p, a, ip, t) == View(p, c, ip, t) {
      assert View(p, a, ip, t) == View(p, b, ip, t) == View(p, c, ip, t);
    }
  }

  // Erasing any checks and restarts from a run changes no answer of the events that
  // remain. Erasing all of them leaves a limiter that never deletes an expired entry.
  lemma HousekeepingIsInvisible(p: Policy, initial: Entries, events: seq<Event>, erased: seq<bool>, now: int)
    requires |events| == |erased| && OnlyHousekeeping(events, erased) && Ordered(events, now)
    ensures var s := State(initial, initial);
            |Answers(p, s, events)| == |events|
            && Keep(Answers(p, s, events), erased) == Answers(p, s, Keep(events, erased))
  {
    EraseFrom(p, State(initial, initial), State(initial, initial), events, erased, now);
  }

  // ----- how long a lock lasts -----

  predicate Unlocked(p: Policy, s: State, ip: string, t: int) {
    !CheckOf(View(p, s.entries, ip, t), t).locked
  }

  // The window of the live entry is open, or there is none.
  predicate WindowOpen(p: Policy, s: State, ip: string, t: int) {
    var v := View(p, s.entries, ip, t); v.Some? ==> t - v.value.firstFailAt <= p.failWindowMs
  }

  // No success or reset for ip, and no fail of ip meets a lock whose window has closed.
  predicate NoLateFail(p: Policy, s: State, events: seq<Event>, ip: string)
    decreases |events|
  {
    events != [] ==>
      var e := events[0];
      && e.op != Success(ip) && e.op != Reset
      && (e.op == Fail(ip) ==> Unlocked(p, s, ip, e.t) || WindowOpen(p, s, ip, e.t))
      && NoLateFail(p, Step(p, s, e), events[1..], ip)
  }

  lemma ViewLater(p: Policy, entries: Entries, ip: string, t: int, u: int)
    requires t <= u
    ensures View(p, entries, ip, u) ==
            var v := View(p, entries, ip, t); if v.Some? && Expired(p, v.value, u) then None else v
  {
  }

  // A lock in force stays in force until it ends.
  lemma {:induction false} LockHolds(p: Policy, s: State, events: seq<Event>, ip: string, now: int, u: int)
    requires Consistent(p, s, now) && Ordered(events, now) && NoLateFail(p, s, events, ip)
    requires View(p, s.entries, ip, now).Some?
    requires u < View(p, s.entries, ip, now).value.lockedUntil <= now + p.lockoutMs
    requires forall i :: 0 <= i < |events| ==> events[i].t <= u
    requires now <= u
    ensures CheckOf(View(p, Run(p, s, events).entries, ip, u), u).locked
    decreases |events|
  {
    ViewLater(p, s.entries, ip, now, u);
    if events != [] {
      var e := events[0];
      SameLater(p, s.entries, s.saved, now, e.t);
      ViewLater(p, s.entries, ip, now, e.t);
      StepView(p, s, e, ip);
      StepConsistent(p, s, e);
      hide Step, View, Consistent;
      LockHolds(p, Step(p, s, e), events[1..], ip, e.t, u);
    }
  }

  // If a fail at time t reports a lock, every check before t + lockoutMs says locked,
  // whatever attempts were in flight when the lock began, unless one of them fails after
  // the window of the entry has closed.
  lemma LockLastsItsTime(p: Policy, s: State, t: int, events: seq<Event>, ip: string, u: int)
    requires Consistent(p, s, t) && t <= u < t + p.lockoutMs
    requires AnswerOf(p, s, Event(Fail(ip), t)).f.locked
    requires var s' := Step(p, s, Event(Fail(ip), t)); Ordered(events, t) && NoLateFail(p, s', events, ip)
    requires forall i :: 0 <= i < |events| ==> events[i].t <= u
    ensures var s' := Step(p, s, Event(Fail(ip), t));
            CheckOf(View(p, Run(p, s', events).entries, ip, u), u).locked
  {
    var e := Event(Fail(ip), t);
    StepView(p, s, e, ip);
    StepConsistent(p, s, e);
    LockHolds(p, Step(p, s, e), events, ip, t, u);
  }

  // A late fail can end a lock: on a locked entry a fail leaves ip locked
  // exactly when the fail window of the entry is still open.
  lemma LateFailKeepsLockIff(p: Policy, s: State, ip: string, t: int)
    requires Consistent(p, s, t) && !Unlocked(p, s, ip, t)
    requires t >= 0 && p.lockoutMs > 0 && View(p, s.entries, ip, t).value.fails >= p.maxFails
    ensures !Unlocked(p, Step(p, s, Event(Fail(ip), t)), ip, t) <==>
            t - View(p, s.entries, ip, t).value.firstFailAt <= p.failWindowMs
  {
    StepView(p, s, Event(Fail(ip), t), ip);
  }

  // ----- what the limiter answers -----

  // The times at which ip fails.
  function FailTimes(events: seq<Event>, ip: string): seq<int> {
    if events == [] then []
    else if events[0].op == Fail(ip) then [events[0].t] + FailTimes(events[1..], ip)
    else FailTimes(events[1..], ip)
  }

  // A lock takes at least two fails: the first never locks.
  function ToLock(p: Policy): nat {
    Max(p.maxFails, 2)
  }

  // All fails fall into the window of the first, and none comes after a lock has ended.
  ghost predicate OneWindow(p: Policy, times: seq<int>) {
    && (forall i :: 0 <= i < |times| ==> 0 <= times[0] <= times[i] <= times[0] + p.failWindowMs)
    && (forall i :: ToLock(p) <= i < |times| ==> times[i] < times[i - 1] + p.lockoutMs)
  }

  // What a check at time u has to say after the given fails of one window.
  function Expected(p: Policy, times: seq<int>, u: int): CheckAnswer {
    if times == [] then CheckAnswer(false, None, 0)
    else
      var n, last := |times|, times[|times| - 1];
      if n < ToLock(p) then CheckAnswer(false, None, if u - times[0] <= p.failWindowMs then n else 0)
      else if u < last + p.lockoutMs then CheckAnswer(true, Some(last + p.lockoutMs - u), n)
      else CheckAnswer(false, None, 0)
  }

  // The live entry after the given fails of one window.
  function EntryAfter(p: Policy, times: seq<int>, t: int): Option<Entry> {
    if times == [] then None
    else
      var lockedUntil := if |times| < ToLock(p) then 0 else times[|times| - 1] + p.lockoutMs;
      if (if lockedUntil == 0 then t - times[0] <= p.failWindowMs else t < lockedUntil)
      then Some(Entry(|times|, times[0], lockedUntil)) else None
  }

  // No success or reset for ip.
  predicate Undisturbed(events: seq<Event>, ip: string) {
    forall e :: e in events ==> e.op != Success(ip) && e.op != Reset
  }

  lemma EntryAfterFail(p: Policy, times: seq<int>, t: int)
    requires Timed(p) && OneWindow(p, times + [t])
    ensures EntryAfter(p, times + [t], t) == Some(FailedEntry(p, EntryAfter(p, times, t), t))
    ensures !Expired(p, FailedEntry(p, EntryAfter(p, times, t), t), t)
    ensures FailLocks(p, EntryAfter(p, times, t), t) <==> |times| + 1 >= ToLock(p)
  {
    var all := times + [t];
    if times != [] {
      assert all[0] == times[0] && all[|times|] == t && all[|times| - 1] == times[|times| - 1];
    }
  }

  lemma EntryAfterLater(p: Policy, times: seq<int>, t: int, u: int)
    requires Timed(p) && OneWindow(p, times) && t <= u && (times != [] ==> times[|times| - 1] <= t)
    ensures var v := EntryAfter(p, times, t); EntryAfter(p, times, u) == if v.Some? && Expired(p, v.value, u) then None else v
  {
  }

  lemma ExpectedOfEntry(p: Policy, times: seq<int>, u: int)
    requires Timed(p) && OneWindow(p, times) && u >= 0
    ensures CheckOf(EntryAfter(p, times, u), u) == Expected(p, times, u)
  {
    if times != [] {
      assert times[|times| - 1] >= 0;
    }
  }

  lemma OneWindowTake(p: Policy, times: seq<int>, more: seq<int>)
    requires OneWindow(p, times + more)
    ensures OneWindow(p, times)
  {
    forall i | 0 <= i < |times| ensures times[i] == (times + more)[i] {}
  }

  // done are the fails of ip before events.
  lemma {:induction false} RunEntry(p: Policy, s: State, events: seq<Event>, ip: string, now: int, done: seq<int>, u: int)
    requires Timed(p) && Consistent(p, s, now) && Ordered(events, now) && Undisturbed(events, ip) && now <= u
    requires forall e :: e in events ==> e.t <= u
    requires View(p, s.entries, ip, now) == EntryAfter(p, done, now) && (done != [] ==> done[|done| - 1] <= now)
    requires OneWindow(p, done + FailTimes(events, ip))
    ensures View(p, Run(p, s, events).entries, ip, u) == EntryAfter(p, done + FailTimes(events, ip), u)
    decreases |events|
  {
    hide View, EntryAfter, OneWindow, Step, FailedEntry, Expired, Consistent;
    OneWindowTake(p, done, FailTimes(events, ip));
    if events == [] {
      ViewLater(p, s.entries, ip, now, u);
      EntryAfterLater(p, done, now, u);
      assert done + [] == done;
    } else {
      var e := events[0];
      SameStays(p, s, now, e.t);
      ViewLater(p, s.entries, ip, now, e.t);
      EntryAfterLater(p, done, now, e.t);
      StepView(p, s, e, ip);
      StepConsistent(p, s, e);
      if e.op == Fail(ip) {
        var more := FailTimes(events[1..], ip);
        assert done + ([e.t] + more) == done + [e.t] + more;
        OneWindowTake(p, done + [e.t], more);
        EntryAfterFail(p, done, e.t);
        RunEntry(p, Step(p, s, e), events[1..], ip, e.t, done + [e.t], u);
      } else {
        RunEntry(p, Step(p, s, e), events[1..], ip, e.t, done, u);
      }
    }
  }

  lemma SameStays(p: Policy, s: State, t: int, u: int)
    requires t <= u && Consistent(p, s, t)
    ensures Consistent(p, s, u)
  {
    SameLater(p, s.entries, s.saved, t, u);
  }

  // From a state without a live entry, whatever other addresses do and however often it is
  // checked or restarted: the check counts the fails of the open window, locks from the
  // maxFails-th on (the second if that is less), says how long is left to the
  // millisecond, and starts from zero when the window or the lock is over. The next
  // fail reports a lock exactly when it reaches that number.
  lemma AnswersOfFails(p: Policy, s: State, events: seq<Event>, ip: string, now: int, u: int)
    requires Timed(p) && Consistent(p, s, now) && Ordered(events, now) && Undisturbed(events, ip) && 0 <= now <= u
    requires forall e :: e in events ==> e.t <= u
    requires View(p, s.entries, ip, now).None? && OneWindow(p, FailTimes(events, ip))
    ensures var times, after := FailTimes(events, ip), Run(p, s, events);
            && AnswerOf(p, after, Event(Check(ip), u)) == Checked(Expected(p, times, u))
            && (OneWindow(p, times + [u]) ==>
                  AnswerOf(p, after, Event(Fail(ip), u)) ==
                  Failed(if |times| + 1 >= ToLock(p) then FailAnswer(true, Some(p.lockoutMs)) else FailAnswer(false, None)))
  {
    hide View, OneWindow, Step, FailedEntry, Consistent, Ordered, Run;
    var times := FailTimes(events, ip);
    assert [] + times == times;
    RunEntry(p, s, events, ip, now, [], u);
    ExpectedOfEntry(p, times, u);
    if OneWindow(p, times + [u]) {
      EntryAfterFail(p, times, u);
    }
  }

  // ----- the guess budget -----

  // Attempts of ip that an unlocked check admits and that fail later, at most k of them
  // in flight at once; no success or reset for ip. A fail ends one of the flight attempts,
  // or one that was admitted at the same moment.
  ghost predicate InFlight(p: Policy, s: State, events: seq<Event>, ip: string, k: nat, flight: nat)
    decreases |events|
  {
    events != [] ==>
      var e, t := events[0], Step(p, s, events[0]);
      && e.op != Success(ip) && e.op != Reset
      && if e.op == Fail(ip) then
           || (flight > 0 && InFlight(p, t, events[1..], ip, k, flight - 1))
           || (flight < k && Unlocked(p, s, ip, e.t) && InFlight(p, t, events[1..], ip, k, flight))
         else
           || InFlight(p, t, events[1..], ip, k, flight)
           || (e.op == Check(ip) && Unlocked(p, s, ip, e.t) && flight < k && InFlight(p, t, events[1..], ip, k, flight + 1))
  }

  // One attempt at a time: every fail of ip meets an unlocked entry.
  predicate Guarded(p: Policy, s: State, events: seq<Event>, ip: string)
    decreases |events|
  {
    events != [] ==>
      var e := events[0];
      && e.op != Success(ip) && e.op != Reset
      && (e.op == Fail(ip) ==> Unlocked(p, s, ip, e.t))
      && Guarded(p, Step(p, s, e), events[1..], ip)
  }

  lemma {:induction false} GuardedInFlight(p: Policy, s: State, events: seq<Event>, ip: string)
    requires Guarded(p, s, events, ip)
    ensures InFlight(p, s, events, ip, 1, 0)
    decreases |events|
  {
    hide Step, Unlocked;
    if events != [] {
      GuardedInFlight(p, Step(p, s, events[0]), events[1..], ip);
    }
  }

  // Fails one window can hold: the first never locks, so at least two, and the attempts
  // in flight when the lock begins.
  function PerWindow(p: Policy, k: nat): nat {
    Max(p.maxFails, 2) + k - 1
  }

  // Fails of ip up to time end.
  function Guesses(events: seq<Event>, ip: string, end: int): nat {
    if events == [] then 0
    else (if events[0].op == Fail(ip) && events[0].t <= end then 1 else 0) + Guesses(events[1..], ip, end)
  }

  function Gap(p: Policy): int {
    Min(p.failWindowMs, p.lockoutMs)
  }

  predicate Timed(p: Policy) {
    p.failWindowMs > 0 && p.lockoutMs > 0
  }

  // After count fails in windows windows, the last of which began at start: windows
  // begin at least a gap apart, and each holds at most PerWindow fails.
  ghost predicate Budget(p: Policy, k: nat, flight: nat, v: Option<Entry>, now: int, first: int, windows: nat, start: int, count: nat) {
    && windows > 0 && 0 <= first <= start <= now && flight <= k
    && start >= first + Gap(p) * (windows - 1)
    && count <= PerWindow(p, k) * windows
    && (v.None? ==> now >= start + Gap(p))
    && (v.Some? ==>
          && v.value.firstFailAt == start
          && 1 <= v.value.fails <= PerWindow(p, k)
          && count <= PerWindow(p, k) * (windows - 1) + v.value.fails
          && (v.value.lockedUntil == 0 ==> v.value.fails == 1 || v.value.fails < p.maxFails)
          && (v.value.lockedUntil != 0 ==>
                v.value.lockedUntil >= start + p.lockoutMs && v.value.fails + flight <= PerWindow(p, k)))
  }

  lemma BudgetLater(p: Policy, k: nat, flight: nat, v: Option<Entry>, now: int, first: int, windows: nat, start: int, count: nat, t: int)
    requires Timed(p) && now <= t && Budget(p, k, flight, v, now, first, windows, start, count)
    ensures Budget(p, k, flight, if v.Some? && Expired(p, v.value, t) then None else v, t, first, windows, start, count)
  {
  }

  // An attempt is admitted.
  lemma BudgetAdmit(p: Policy, k: nat, flight: nat, v: Option<Entry>, t: int, first: int, windows: nat, start: int, count: nat)
    requires Timed(p) && Budget(p, k, flight, v, t, first, windows, start, count) && flight < k
    requires !CheckOf(v, t).locked && (v.Some? ==> !Expired(p, v.value, t))
    ensures Budget(p, k, flight + 1, v, t, first, windows, start, count)
  {
  }

  // One more fail, of an attempt in flight or of one that is admitted now.
  lemma BudgetFail(p: Policy, k: nat, flight: nat, left: nat, v: Option<Entry>, t: int, first: int, windows: nat, start: int, count: nat)
    requires Timed(p) && k > 0 && Budget(p, k, flight, v, t, first, windows, start, count)
    requires v.Some? ==> !Expired(p, v.value, t)
    requires (flight > 0 && left == flight - 1) || (flight < k && left == flight && !CheckOf(v, t).locked)
    ensures var after := FailedEntry(p, v, t);
            !Expired(p, after, t) &&
            if NewWindow(p, v, t) then Budget(p, k, left, Some(after), t, first, windows + 1, t, count + 1)
            else Budget(p, k, left, Some(after), t, first, windows, start, count + 1)
  {
    assert Gap(p) * windows == Gap(p) * (windows - 1) + Gap(p);
    assert PerWindow(p, k) * windows == PerWindow(p, k) * (windows - 1) + PerWindow(p, k);
    assert PerWindow(p, k) * (windows + 1) == PerWindow(p, k) * windows + PerWindow(p, k);
  }

  // The fail opens a window: there is no live entry, or its window has closed.
  predicate NewWindow(p: Policy, v: Option<Entry>, t: int) {
    v.None? || t - v.value.firstFailAt > p.failWindowMs
  }

  lemma {:induction false} NoMoreGuesses(events: seq<Event>, ip: string, from: int, end: int)
    requires Ordered(events, from) && from > end
    ensures Guesses(events, ip, end) == 0
  {
    if events != [] {
      NoMoreGuesses(events[1..], ip, events[0].t, end);
    }
  }

  // The windows that begin by time end.
  lemma WindowsBound(gap: int, span: nat, windows: nat, per: nat, count: nat)
    requires gap > 0 && windows > 0 && gap * (windows - 1) <= span && count <= per * windows
    ensures count <= per * (span / gap + 1)
  {
    var q := span / gap;
    assert span < gap * (q + 1);
    if windows - 1 > q {
      MulMonotone(gap, q + 1, windows - 1);
      assert false;
    }
    MulMonotone(per, windows, q + 1);
  }

  lemma MulMonotone(k: nat, a: int, b: int)
    requires a <= b
    ensures k * a <= k * b
  {
  }

  lemma {:induction false} GuessesFrom(p: Policy, s: State, events: seq<Event>, ip: string, k: nat, flight: nat, now: int,
                                       first: int, windows: nat, start: int, count: nat, end: int)
    requires Timed(p) && now <= end && k > 0
    requires Consistent(p, s, now) && Ordered(events, now) && InFlight(p, s, events, ip, k, flight)
    requires Budget(p, k, flight, View(p, s.entries, ip, now), now, first, windows, start, count)
    ensures count + Guesses(events, ip, end) <= PerWindow(p, k) * ((end - first) / Gap(p) + 1)
    decreases |events|
  {
    if events == [] || events[0].t > end {
      if events != [] {
        NoMoreGuesses(events[1..], ip, events[0].t, end);
      }
      WindowsBound(Gap(p), end - first, windows, PerWindow(p, k), count);
    } else {
      var e := events[0];
      var v, t := View(p, s.entries, ip, e.t), Step(p, s, e);
      SameLater(p, s.entries, s.saved, now, e.t);
      ViewLater(p, s.entries, ip, now, e.t);
      BudgetLater(p, k, flight, View(p, s.entries, ip, now), now, first, windows, start, count, e.t);
      StepView(p, s, e, ip);
      StepConsistent(p, s, e);
      ViewIsLive(p, s.entries, ip, e.t);
      hide Budget, Consistent, Step, View, FailedEntry, Gap, PerWindow, NewWindow, CheckOf;
      if e.op == Fail(ip) {
        var left := if flight > 0 && InFlight(p, t, events[1..], ip, k, flight - 1) then flight - 1 else flight;
        BudgetFail(p, k, flight, left, v, e.t, first, windows, start, count);
        GuessesFrom(p, t, events[1..], ip, k, left, e.t, first,
                    if NewWindow(p, v, e.t) then windows + 1 else windows, if NewWindow(p, v, e.t) then e.t else start, count + 1, end);
      } else if e.op == Check(ip) && Unlocked(p, s, ip, e.t) && flight < k && InFlight(p, t, events[1..], ip, k, flight + 1) {
        BudgetAdmit(p, k, flight, v, e.t, first, windows, start, count);
        GuessesFrom(p, t, events[1..], ip, k, flight + 1, e.t, first, windows, start, count, end);
      } else {
        GuessesFrom(p, t, events[1..], ip, k, flight, e.t, first, windows, start, count, end);
      }
    }
  }

  lemma ViewIsLive(p: Policy, entries: Entries, ip: string, t: int)
    ensures var v := View(p, entries, ip, t); v.Some? ==> !Expired(p, v.value, t)
  {
  }

  function FirstGuess(events: seq<Event>, ip: string): Option<int> {
    if events == [] then None
    else if events[0].op == Fail(ip) then Some(events[0].t)
    else FirstGuess(events[1..], ip)
  }

  // Guess budget with attempts in flight: in a run that starts without a live entry and
  // has at most k attempts in flight at once, the fails within span of the first are at
  // most PerWindow per started gap.
  lemma {:induction false} InFlightBudget(p: Policy, s: State, events: seq<Event>, ip: string, k: nat, flight: nat, now: int, span: nat)
    requires Timed(p) && now >= 0 && 0 < k && flight <= k
    requires Consistent(p, s, now) && Ordered(events, now) && InFlight(p, s, events, ip, k, flight)
    requires View(p, s.entries, ip, now).None?
    ensures FirstGuess(events, ip).Some? ==>
              Guesses(events, ip, FirstGuess(events, ip).value + span) <= PerWindow(p, k) * (span / Gap(p) + 1)
    decreases |events|
  {
    if events != [] {
      var e, t := events[0], Step(p, s, events[0]);
      SameLater(p, s.entries, s.saved, now, e.t);
      ViewLater(p, s.entries, ip, now, e.t);
      StepView(p, s, e, ip);
      StepConsistent(p, s, e);
      if e.op == Fail(ip) {
        var left := if flight > 0 && InFlight(p, t, events[1..], ip, k, flight - 1) then flight - 1 else flight;
        assert Budget(p, k, left, Some(Entry(1, e.t, 0)), e.t, e.t, 1, e.t, 1);
        hide InFlight, Budget, Step, Consistent, PerWindow, Gap;
        GuessesFrom(p, t, events[1..], ip, k, left, e.t, e.t, 1, e.t, 1, e.t + span);
      } else if e.op == Check(ip) && flight < k && InFlight(p, t, events[1..], ip, k, flight + 1) {
        InFlightBudget(p, t, events[1..], ip, k, flight + 1, e.t, span);
      } else {
        InFlightBudget(p, t, events[1..], ip, k, flight, e.t, span);
      }
    }
  }

  // With one attempt at a time the bound is max(maxFails, 2) per started gap.
  lemma GuessBudget(p: Policy, s: State, events: seq<Event>, ip: string, now: int, span: nat)
    requires Timed(p) && now >= 0
    requires Consistent(p, s, now) && Ordered(events, now) && Guarded(p, s, events, ip)
    requires View(p, s.entries, ip, now).None?
    ensures FirstGuess(events, ip).Some? ==>
              Guesses(events, ip, FirstGuess(events, ip).value + span) <= Max(p.maxFails, 2) * (span / Gap(p) + 1)
  {
    hide InFlight, Guarded, Guesses, FirstGuess, Consistent, View;
    GuardedInFlight(p, s, events, ip);
    InFlightBudget(p, s, events, ip, 1, 0, now, span);
  }

  // What the budget is stated for: one attempt at a time, from no live entry.
  ghost predicate BudgetRun(p: Policy, s: State, events: seq<Event>, ip: string, now: int) {
    now >= 0 && Consistent(p, s, now) && Ordered(events, now) && Guarded(p, s, events, ip) && View(p, s.entries, ip, now).None?
  }

  // At most maxFails per started gap.
  ghost predicate WithinMaxFails(p: Policy, events: seq<Event>, ip: string, span: nat)
    requires Timed(p)
  {
    FirstGuess(events, ip).Some? ==> Guesses(events, ip, FirstGuess(events, ip).value + span) <= p.maxFails * (span / Gap(p) + 1)
  }

  // The first fail never locks, so a second one always goes through.
  lemma TwoGuesses(p: Policy)
    requires Timed(p)
    ensures var events := [Event(Fail("a"), 0), Event(Fail("a"), 0)];
            && BudgetRun(p, State(map[], map[]), events, "a", 0) && Guesses(events, "a", 0) == 2
            && (p.maxFails <= 1 ==> !WithinMaxFails(p, events, "a", 0))
  {
    var e, s := Event(Fail("a"), 0), State(map[], map[]);
    var es := map["a" := Entry(1, 0, 0)];
    assert [e, e][1..] == [e] && [e][1..] == [];
    assert Step(p, s, e) == State(es, es);
    assert Guarded(p, State(es, es), [e], "a");
    assert Guesses([e], "a", 0) == 1;
  }

  // Every such run stays within maxFails per window exactly when maxFails is at least two.
  lemma MaxFailsHoldsIff(p: Policy)
    requires Timed(p)
    ensures (forall s, events, ip, now, span: nat :: BudgetRun(p, s, events, ip, now) ==> WithinMaxFails(p, events, ip, span)) <==>
              p.maxFails >= 2
  {
    hide Guarded, Guesses, FirstGuess, Consistent, View, Ordered;
    if p.maxFails >= 2 {
      forall s, events, ip, now, span: nat | BudgetRun(p, s, events, ip, now)
        ensures WithinMaxFails(p, events, ip, span)
      {
        GuessBudget(p, s, events, ip, now, span);
      }
    } else {
      TwoGuesses(p);
    }
  }

  // ----- a lock ended by a late fail -----

  // With the default policy, from an empty limiter: the fifth fail locks for 15 minutes,
  // and an attempt that was admitted just before it ends the lock by failing a tenth of
  // a second later, when the window of five minutes has closed.
  lemma LateFailUnlocks()
    ensures var p, s := Policy(5, 300000, 900000), State(map[], map[]);
            var fail, lock, late := Event(Fail("a"), 0), Event(Fail("a"), 299900), Event(Fail("a"), 300001);
            var before := [fail, fail, fail, fail, Event(Check("a"), 299900)];
            && InFlight(p, s, before + [lock, late], "a", 2, 0) && Ordered(before + [lock, late], 0)
            && AnswerOf(p, Run(p, s, before), lock) == Failed(FailAnswer(true, Some(900000)))
            && !Unlocked(p, Run(p, s, before + [lock]), "a", 300001)
            && Unlocked(p, Run(p, s, before + [lock, late]), "a", 300001)
  {
    var p, s := Policy(5, 300000, 900000), State(map[], map[]);
    var fail, lock, late := Event(Fail("a"), 0), Event(Fail("a"), 299900), Event(Fail("a"), 300001);
    var check := Event(Check("a"), 299900);
    var four, shut, again := Counted(4, 0, 0), Counted(5, 0, 1199900), Counted(1, 300001, 0);
    FourFails(p, [check, lock, late], 2);
    FourFails(p, [check, lock], 2);
    FourFails(p, [check], 2);
    assert [fail, fail, fail, fail, check] == [fail, fail, fail, fail] + [check];
    assert [fail, fail, fail, fail, check] + [lock, late] == [fail, fail, fail, fail] + [check, lock, late];
    assert [fail, fail, fail, fail, check] + [lock] == [fail, fail, fail, fail] + [check, lock];
    assert [check, lock, late][1..] == [lock, late] && [lock, late][1..] == [late] && [late][1..] == [];
    assert [check, lock][1..] == [lock] && [lock][1..] == [] && [check][1..] == [];
    LateSteps(p);
    hide Step, Unlocked, AnswerOf;
    assert Ordered([late], lock.t);
    OrderedCons(lock, [late], check.t);
    OrderedCons(check, [lock, late], 0);
    assert [lock] + [late] == [lock, late] && [check] + [lock, late] == [check, lock, late];
    assert InFlight(p, again, [], "a", 2, 0);
    assert InFlight(p, shut, [late], "a", 2, 1);
    assert InFlight(p, four, [lock, late], "a", 2, 1);
    assert InFlight(p, four, [check, lock, late], "a", 2, 0);
    assert Run(p, four, [check]) == four;
    assert Run(p, shut, []) == shut && Run(p, four, [lock]) == shut && Run(p, four, [check, lock]) == shut;
    assert Run(p, shut, [late]) == again && Run(p, four, [lock, late]) == again && Run(p, four, [check, lock, late]) == again;
  }

  lemma OrderedCons(e: Event, rest: seq<Event>, from: int)
    requires from <= e.t && Ordered(rest, e.t)
    ensures Ordered([e] + rest, from)
  {
    assert ([e] + rest)[1..] == rest;
  }

  lemma LateSteps(p: Policy)
    requires p == Policy(5, 300000, 900000)
    ensures var four, shut, again := Counted(4, 0, 0), Counted(5, 0, 1199900), Counted(1, 300001, 0);
            var lock := Event(Fail("a"), 299900);
            && Step(p, four, Event(Check("a"), 299900)) == four && Unlocked(p, four, "a", 299900)
            && Step(p, four, lock) == shut && AnswerOf(p, four, lock) == Failed(FailAnswer(true, Some(900000)))
            && Step(p, shut, Event(Fail("a"), 300001)) == again
            && !Unlocked(p, shut, "a", 300001) && Unlocked(p, again, "a", 300001)
  {
  }

  function Counted(fails: int, first: int, locked: int): State {
    State(map["a" := Entry(fails, first, locked)], map["a" := Entry(fails, first, locked)])
  }

  lemma FourFails(p: Policy, rest: seq<Event>, k: nat)
    requires p == Policy(5, 300000, 900000) && k > 0
    ensures var fail, s := Event(Fail("a"), 0), State(map[], map[]);
            var events := [fail, fail, fail, fail] + rest;
            && Run(p, s, events) == Run(p, Counted(4, 0, 0), rest)
            && (InFlight(p, Counted(4, 0, 0), rest, "a", k, 0) ==> InFlight(p, s, events, "a", k, 0))
            && (Ordered(rest, 0) ==> Ordered(events, 0))
  {
    var fail, s := Event(Fail("a"), 0), State(map[], map[]);
    OneFail(p, s, Counted(1, 0, 0), [fail, fail, fail] + rest, k);
    OneFail(p, Counted(1, 0, 0), Counted(2, 0, 0), [fail, fail] + rest, k);
    OneFail(p, Counted(2, 0, 0), Counted(3, 0, 0), [fail] + rest, k);
    OneFail(p, Counted(3, 0, 0), Counted(4, 0, 0), rest, k);
    assert [fail, fail, fail, fail] + rest == [fail] + ([fail, fail, fail] + rest);
    assert [fail, fail, fail] + rest == [fail] + ([fail, fail] + rest);
    assert [fail, fail] + rest == [fail] + ([fail] + rest);
  }

  lemma OneFail(p: Policy, s: State, t: State, rest: seq<Event>, k: nat)
    requires k > 0 && Step(p, s, Event(Fail("a"), 0)) == t && Unlocked(p, s, "a", 0)
    ensures var events := [Event(Fail("a"), 0)] + rest;
            && Run(p, s, events) == Run(p, t, rest)
            && (InFlight(p, t, rest, "a", k, 0) ==> InFlight(p, s, events, "a", k, 0))
            && (Ordered(rest, 0) ==> Ordered(events, 0))
  {
    hide Step, Unlocked;
    assert ([Event(Fail("a"), 0)] + rest)[1..] == rest;
  }
}
