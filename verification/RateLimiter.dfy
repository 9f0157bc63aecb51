// The login rate limiter and the load step of its file store
// (apps/server/src/auth/rate-limit.ts, apps/server/src/auth/rate-limit-store.ts).
// Times are milliseconds.
module RateLimiter {
  import opened Outcome

  datatype Entry = Entry(fails: int, firstFailAt: int, lockedUntil: int)

  datatype Policy = Policy(maxFails: int, failWindowMs: int, lockoutMs: int)

  datatype CheckAnswer = CheckAnswer(locked: bool, retryAfterMs: Option<int>, fails: int)

  datatype FailAnswer = FailAnswer(locked: bool, retryAfterMs: Option<int>)

  type Entries = map<string, Entry>

  const UNLOCKED := FailAnswer(false, None)

  // ----- specification -----

  // An entry that the next check deletes.
  predicate Expired(p: Policy, e: Entry, t: int) {
    e.lockedUntil <= t && (e.lockedUntil > 0 || t - e.firstFailAt > p.failWindowMs)
  }

  // The entry of ip, if it still has any effect at time t.
  function View(p: Policy, entries: Entries, ip: string, t: int): Option<Entry> {
    if ip in entries && !Expired(p, entries[ip], t) then Some(entries[ip]) else None
  }

  function CheckOf(v: Option<Entry>, t: int): CheckAnswer {
    match v
    case None => CheckAnswer(false, None, 0)
    case Some(e) =>
      if e.lockedUntil > t then CheckAnswer(true, Some(e.lockedUntil - t), e.fails)
      else CheckAnswer(false, None, e.fails)
  }

  // The entry after a failed attempt at time t.
  function FailedEntry(p: Policy, v: Option<Entry>, t: int): Entry {
    if v.None? || t - v.value.firstFailAt > p.failWindowMs then Entry(1, t, 0)
    else
      var e := v.value.(fails := v.value.fails + 1);
      if e.fails >= p.maxFails then e.(lockedUntil := t + p.lockoutMs) else e
  }

  // The attempt crossed the threshold.
  predicate FailLocks(p: Policy, v: Option<Entry>, t: int) {
    v.Some? && t - v.value.firstFailAt <= p.failWindowMs && v.value.fails + 1 >= p.maxFails
  }

  function FailOf(p: Policy, v: Option<Entry>, t: int): FailAnswer {
    if FailLocks(p, v, t) then FailAnswer(true, Some(p.lockoutMs)) else UNLOCKED
  }

  predicate ShouldPrune(p: Policy, e: Entry, t: int) {
    e.lockedUntil <= t && t - e.firstFailAt > p.failWindowMs
  }

  // ----- the limiter -----

  class Limiter {
    const policy: Policy
    var entries: Entries
    var saved: Entries // what the store was last handed

    constructor (policy: Policy, initialEntries: Entries)
      ensures this.policy == policy && entries == initialEntries && saved == initialEntries
    {
      this.policy := policy;
      entries := initialEntries;
      saved := initialEntries;
    }

    method Check(ip: string, t: int) returns (answer: CheckAnswer)
      modifies this`entries
      ensures answer == CheckOf(View(policy, old(entries), ip, t), t)
      ensures entries == if View(policy, old(entries), ip, t).None? then old(entries) - {ip} else old(entries)
    {
      if ip !in entries {
        return CheckAnswer(false, None, 0);
      }
      var entry := entries[ip];
      if entry.lockedUntil > t {
        return CheckAnswer(true, Some(entry.lockedUntil - t), entry.fails);
      }
      if entry.lockedUntil > 0 && entry.lockedUntil <= t {
        entries := entries - {ip};
        return CheckAnswer(false, None, 0);
      }
      if t - entry.firstFailAt > policy.failWindowMs {
        entries := entries - {ip};
        return CheckAnswer(false, None, 0);
      }
      return CheckAnswer(false, None, entry.fails);
    }

    method Fail(ip: string, t: int) returns (answer: FailAnswer)
      modifies this
      ensures answer == FailOf(policy, View(policy, old(entries), ip, t), t)
      ensures entries == old(entries)[ip := FailedEntry(policy, View(policy, old(entries), ip, t), t)]
      ensures saved == entries
    {
      var startOver := ip !in entries;
      if !startOver {
        var entry := entries[ip];
        var lockoutExpired := entry.lockedUntil > 0 && entry.lockedUntil <= t;
        startOver := t - entry.firstFailAt > policy.failWindowMs || lockoutExpired;
      }
      if startOver {
        entries := entries[ip := Entry(1, t, 0)];
        saved := entries;
        return UNLOCKED;
      }
      var entry := entries[ip];
      entry := entry.(fails := entry.fails + 1);
      entries := entries[ip := entry];
      if entry.fails >= policy.maxFails {
        entries := entries[ip := entry.(lockedUntil := t + policy.lockoutMs)];
        saved := entries;
        return FailAnswer(true, Some(policy.lockoutMs));
      }
      saved := entries;
      return UNLOCKED;
    }

    method Success(ip: string)
      modifies this
      ensures entries == old(entries) - {ip}
      ensures saved == if ip in old(entries) then entries else old(saved)
    {
      var had := ip in entries;
      entries := entries - {ip};
      if had {
        saved := entries;
      }
    }

    method Reset()
      modifies this
      ensures entries == map[] && saved == map[]
    {
      entries := map[];
      saved := entries;
    }
  }

  // A value found under an address in the state file: an entry if it has three
  // numeric fields.
  datatype RawEntry = RawEntry(ip: string, entry: Option<Entry>)

  datatype StateFile = Unusable | Version1(entries: seq<RawEntry>)

  predicate Loaded(p: Policy, prune: bool, raw: RawEntry, t: int) {
    raw.entry.Some? && !(prune && ShouldPrune(p, raw.entry.value, t))
  }

  // The entries a file yields: malformed ones and those that can no longer lock are dropped.
  function LoadedEntries(p: Policy, prune: bool, raws: seq<RawEntry>, t: int): Entries {
    if raws == [] then map[]
    else
      var raw := raws[|raws| - 1];
      var before := LoadedEntries(p, prune, raws[..|raws| - 1], t);
      if Loaded(p, prune, raw, t) then before[raw.ip := raw.entry.value] else before
  }

  // The last entry of the address that is neither malformed nor past all effect.
  ghost predicate IsLastLoaded(p: Policy, prune: bool, raws: seq<RawEntry>, t: int, ip: string, i: int) {
    && 0 <= i < |raws| && raws[i].ip == ip && Loaded(p, prune, raws[i], t)
    && forall j :: i < j < |raws| ==> raws[j].ip != ip || !Loaded(p, prune, raws[j], t)
  }

  lemma LastLoadedSnoc(p: Policy, prune: bool, raws: seq<RawEntry>, t: int, ip: string, i: int)
    requires raws != []
    ensures var n := |raws| - 1;
            IsLastLoaded(p, prune, raws, t, ip, i) <==>
              if raws[n].ip == ip && Loaded(p, prune, raws[n], t) then i == n else IsLastLoaded(p, prune, raws[..n], t, ip, i)
  {
    hide Loaded;
  }

  // An address has the last of its entries in the file, if any.
  lemma {:induction false} LoadedIsLast(p: Policy, prune: bool, raws: seq<RawEntry>, t: int, ip: string)
    ensures var loaded := LoadedEntries(p, prune, raws, t);
            && (ip in loaded <==> exists i :: IsLastLoaded(p, prune, raws, t, ip, i))
            && forall i :: IsLastLoaded(p, prune, raws, t, ip, i) ==> 0 <= i < |raws| && ip in loaded && Some(loaded[ip]) == raws[i].entry
    decreases |raws|
  {
    if raws != [] {
      var n := |raws| - 1;
      LoadedIsLast(p, prune, raws[..n], t, ip);
      hide IsLastLoaded;
      forall i
        ensures IsLastLoaded(p, prune, raws, t, ip, i) <==>
                if raws[n].ip == ip && Loaded(p, prune, raws[n], t) then i == n else IsLastLoaded(p, prune, raws[..n], t, ip, i)
      {
        LastLoadedSnoc(p, prune, raws, t, ip, i);
      }
      if raws[n].ip == ip && Loaded(p, prune, raws[n], t) {
        assert IsLastLoaded(p, prune, raws, t, ip, n);
      } else if i :| IsLastLoaded(p, prune, raws[..n], t, ip, i) {
        assert IsLastLoaded(p, prune, raws, t, ip, i);
      }
    }
  }

  method Load(p: Policy, prune: bool, file: StateFile, t: int) returns (out: Entries)
    ensures out == if file.Unusable? then map[] else LoadedEntries(p, prune, file.entries, t)
  {
    out := map[];
    if file.Unusable? {
      return;
    }
    var raws := file.entries;
    for k := 0 to |raws|
      invariant out == LoadedEntries(p, prune, raws[..k], t)
    {
      var raw := raws[k];
      assert raws[..k + 1][..k] == raws[..k];
      if raw.entry.Some? && !(prune && ShouldPrune(p, raw.entry.value, t)) {
        out := out[raw.ip := raw.entry.value];
      }
    }
    assert raws[..|raws|] == raws;
  }

  // The entries of a saved map that pruning leaves.
  function Pruned(p: Policy, prune: bool, saved: Entries, t: int): Entries {
    map ip | ip in saved && !(prune && ShouldPrune(p, saved[ip], t)) :: saved[ip]
  }

  // The file lists the saved map, one well-formed entry per address.
  ghost predicate Lists(raws: seq<RawEntry>, saved: Entries) {
    if raws == [] then saved == map[]
    else
      var raw := raws[|raws| - 1];
      && raw.entry.Some? && raw.ip in saved && saved[raw.ip] == raw.entry.value
      && Lists(raws[..|raws| - 1], saved - {raw.ip})
  }

  // Loading a saved map gives back its entries, except those pruned.
  lemma {:induction false} LoadAfterSave(p: Policy, prune: bool, raws: seq<RawEntry>, saved: Entries, t: int)
    requires Lists(raws, saved)
    ensures LoadedEntries(p, prune, raws, t) == Pruned(p, prune, saved, t)
  {
    if raws != [] {
      var raw := raws[|raws| - 1];
      LoadAfterSave(p, prune, raws[..|raws| - 1], saved - {raw.ip}, t);
      var rest := Pruned(p, prune, saved - {raw.ip}, t);
      if Loaded(p, prune, raw, t) {
        assert Pruned(p, prune, saved, t) == rest[raw.ip := raw.entry.value];
      } else {
        assert Pruned(p, prune, saved, t) == rest;
      }
    }
  }
}
