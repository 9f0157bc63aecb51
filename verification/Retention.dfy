// Which snapshots a sweep keeps (apps/server/src/deploy/retention.ts).
module Retention {
  import opened Outcome
  import opened Numbers

  // The id of a snapshot and its parsed timestamp in milliseconds, None if unreadable.
  datatype Meta = Meta(id: string, time: Option<int>)

  datatype Config = Config(count: int, days: int)

  const DAY_MS := 24 * 60 * 60 * 1000

  function Cutoff(cfg: Config, now: int): int {
    now - cfg.days * DAY_MS
  }

  predicate Recent(m: Meta, cfg: Config, now: int) {
    m.time.Some? ==> m.time.value > Cutoff(cfg, now)
  }

  predicate Keeps(m: Meta, i: nat, cfg: Config, now: int) {
    i < cfg.count || Recent(m, cfg, now)
  }

  // The ids from position i on that are kept (or, for keep = false, removed), in order.
  function Decided(metas: seq<Meta>, i: nat, cfg: Config, now: int, keep: bool): seq<string>
    requires i <= |metas|
    decreases |metas| - i
  {
    if i == |metas| then []
    else (if Keeps(metas[i], i, cfg, now) == keep then [metas[i].id] else []) + Decided(metas, i + 1, cfg, now, keep)
  }

  method ApplyRetention(metas: seq<Meta>, cfg: Config, now: int) returns (keep: seq<string>, remove: seq<string>)
    ensures keep == Decided(metas, 0, cfg, now, true)
    ensures remove == Decided(metas, 0, cfg, now, false)
  {
    hide Decided;
    keep, remove := [], [];
    DecidedEmpty(metas, cfg, now);
    var cutoff := now - cfg.days * DAY_MS;
    for i := 0 to |metas|
      invariant keep + Decided(metas, i, cfg, now, true) == Decided(metas, 0, cfg, now, true)
      invariant remove + Decided(metas, i, cfg, now, false) == Decided(metas, 0, cfg, now, false)
    {
      DecidedStep(metas, i, cfg, now, keep, true);
      DecidedStep(metas, i, cfg, now, remove, false);
      var ageOk := if metas[i].time.Some? then metas[i].time.value > cutoff else true;
      if i < cfg.count || ageOk {
        keep := keep + [metas[i].id];
      } else {
        remove := remove + [metas[i].id];
      }
    }
  }

  lemma DecidedStep(metas: seq<Meta>, i: nat, cfg: Config, now: int, before: seq<string>, keep: bool)
    requires i < |metas|
    ensures before + Decided(metas, i, cfg, now, keep) ==
            (if Keeps(metas[i], i, cfg, now) == keep then before + [metas[i].id] else before) + Decided(metas, i + 1, cfg, now, keep)
  {
    hide Keeps;
    var rest := Decided(metas, i + 1, cfg, now, keep);
    assert before + ([metas[i].id] + rest) == before + [metas[i].id] + rest;
    assert before + ([] + rest) == before + rest;
  }

  lemma DecidedEmpty(metas: seq<Meta>, cfg: Config, now: int)
    ensures forall keep :: Decided(metas, |metas|, cfg, now, keep) == []
  {
  }

  // ----- what the decision amounts to -----

  // Newest first, with every timestamp readable.
  ghost predicate NewestFirst(metas: seq<Meta>) {
    && (forall i :: 0 <= i < |metas| ==> metas[i].time.Some?)
    && (forall i, j :: 0 <= i < j < |metas| ==> metas[i].time.value >= metas[j].time.value)
  }

  function CountRecent(metas: seq<Meta>, cfg: Config, now: int): nat {
    if metas == [] then 0
    else (if Recent(metas[0], cfg, now) then 1 else 0) + CountRecent(metas[1..], cfg, now)
  }

  lemma {:induction false} RecentIsPrefix(metas: seq<Meta>, cfg: Config, now: int, i: nat)
    requires NewestFirst(metas) && i < |metas|
    ensures Recent(metas[i], cfg, now) <==> i < CountRecent(metas, cfg, now)
    decreases |metas|
  {
    if i > 0 {
      RecentIsPrefix(metas[1..], cfg, now, i - 1);
    } else if !Recent(metas[0], cfg, now) {
      NoneRecent(metas, cfg, now);
    }
  }

  lemma {:induction false} NoneRecent(metas: seq<Meta>, cfg: Config, now: int)
    requires forall i :: 0 <= i < |metas| ==> !Recent(metas[i], cfg, now)
    ensures CountRecent(metas, cfg, now) == 0
  {
    if metas != [] {
      NoneRecent(metas[1..], cfg, now);
    }
  }

  function Ids(metas: seq<Meta>): (r: seq<string>)
    ensures |r| == |metas|
  {
    if metas == [] then [] else [metas[0].id] + Ids(metas[1..])
  }

  lemma {:induction false} DecidedNone(metas: seq<Meta>, i: nat, cfg: Config, now: int)
    requires i <= |metas|
    requires forall j :: i <= j < |metas| ==> !Keeps(metas[j], j, cfg, now)
    ensures Decided(metas, i, cfg, now, true) == []
    ensures Decided(metas, i, cfg, now, false) == Ids(metas[i..])
    decreases |metas| - i
  {
    hide Keeps;
    if i < |metas| {
      DecidedNone(metas, i + 1, cfg, now);
      assert metas[i..][1..] == metas[i + 1..];
    }
  }

  // The positions from i to m are kept, those from m on are not.
  lemma {:induction false} DecidedSplits(metas: seq<Meta>, i: nat, m: nat, cfg: Config, now: int)
    requires i <= m <= |metas|
    requires forall j :: i <= j < |metas| ==> (Keeps(metas[j], j, cfg, now) <==> j < m)
    ensures Decided(metas, i, cfg, now, true) == Ids(metas[i..m])
    ensures Decided(metas, i, cfg, now, false) == Ids(metas[m..])
    decreases |metas| - i
  {
    hide Keeps;
    if i < m {
      DecidedSplits(metas, i + 1, m, cfg, now);
      assert metas[i..m][1..] == metas[i + 1..m];
    } else if i < |metas| {
      DecidedNone(metas, i, cfg, now);
    }
  }

  // Over a newest-first list the sweep keeps exactly the max(count, recent) newest
  // snapshots and removes the rest.
  lemma KeepsTheNewest(metas: seq<Meta>, cfg: Config, now: int)
    requires NewestFirst(metas)
    ensures var n := Min(Max(0, Max(cfg.count, CountRecent(metas, cfg, now))), |metas|);
            && Decided(metas, 0, cfg, now, true) == Ids(metas[..n])
            && Decided(metas, 0, cfg, now, false) == Ids(metas[n..])
  {
    var n := Min(Max(0, Max(cfg.count, CountRecent(metas, cfg, now))), |metas|);
    forall j | 0 <= j < |metas|
      ensures Keeps(metas[j], j, cfg, now) <==> j < n
    {
      RecentIsPrefix(metas, cfg, now, j);
    }
    DecidedSplits(metas, 0, n, cfg, now);
    assert metas[0..n] == metas[..n];
  }

  // An unreadable timestamp is never a reason to remove, whatever the order.
  lemma {:induction false} RemovedIff(metas: seq<Meta>, i: nat, cfg: Config, now: int, id: string)
    requires i <= |metas|
    ensures id in Decided(metas, i, cfg, now, false) <==>
            exists j :: i <= j < |metas| && metas[j].id == id && j >= cfg.count
                        && metas[j].time.Some? && metas[j].time.value <= Cutoff(cfg, now)
    decreases |metas| - i
  {
    if i < |metas| {
      RemovedIff(metas, i + 1, cfg, now, id);
    }
  }

  // Behind the count, an entry goes exactly when it is at least the given number of days
  // old, a day being 86 400 000 milliseconds.
  lemma AgeInDays(m: Meta, i: nat, cfg: Config, now: int)
    ensures Keeps(m, i, cfg, now) <==> i < cfg.count || m.time.None? || now - m.time.value < cfg.days * 86_400_000
  {
    assert DAY_MS == 86_400_000;
  }
}
