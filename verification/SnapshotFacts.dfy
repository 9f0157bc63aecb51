// The snapshot directory: what writing, deleting, finding and listing do to it.
module SnapshotFacts {
  import opened Outcome
  import opened Numbers
  import opened Mask
  import opened Snapshots
  import opened Text
  import opened VaultStore
  import R = Retention

  ghost predicate NoId(dir: seq<Snapshot>, id: string) {
    forall x :: x in dir ==> x.id != id
  }

  ghost predicate UniqueIds(dir: seq<Snapshot>) {
    dir != [] ==> NoId(dir[1..], dir[0].id) && UniqueIds(dir[1..])
  }

  lemma {:induction false} PutMembers(dir: seq<Snapshot>, s: Snapshot, x: Snapshot)
    requires x in Put(dir, s)
    ensures x == s || x in dir
  {
    if dir != [] && dir[0].id != s.id && x in Put(dir[1..], s) {
      PutMembers(dir[1..], s, x);
    }
  }

  lemma {:induction false} PutUnique(dir: seq<Snapshot>, s: Snapshot)
    requires UniqueIds(dir)
    ensures UniqueIds(Put(dir, s))
  {
    if dir != [] && dir[0].id != s.id {
      PutUnique(dir[1..], s);
      forall x | x in Put(dir[1..], s)
        ensures x.id != dir[0].id
      {
        PutMembers(dir[1..], s, x);
      }
    }
  }

  lemma {:induction false} PutFound(dir: seq<Snapshot>, s: Snapshot)
    ensures Find(Put(dir, s), s.id) == Some(s)
  {
    if dir != [] && dir[0].id != s.id {
      PutFound(dir[1..], s);
    }
  }

  lemma {:induction false} FindMember(dir: seq<Snapshot>, id: string)
    ensures Find(dir, id).Some? ==> Find(dir, id).value in dir && Find(dir, id).value.id == id
  {
    if dir != [] && dir[0].id != id {
      FindMember(dir[1..], id);
    }
  }

  lemma {:induction false} MemberFound(dir: seq<Snapshot>, x: Snapshot)
    requires UniqueIds(dir) && x in dir
    ensures Find(dir, x.id) == Some(x)
  {
    if x != dir[0] {
      MemberFound(dir[1..], x);
    }
  }

  lemma {:induction false} DeleteMembers(dir: seq<Snapshot>, id: string, x: Snapshot)
    ensures x in Delete(dir, id) <==> x in dir && x.id != id
  {
    if dir != [] {
      DeleteMembers(dir[1..], id, x);
    }
  }

  lemma {:induction false} DeleteUnique(dir: seq<Snapshot>, id: string)
    requires UniqueIds(dir)
    ensures UniqueIds(Delete(dir, id))
  {
    if dir != [] {
      DeleteUnique(dir[1..], id);
      if dir[0].id != id {
        forall x | x in Delete(dir[1..], id)
          ensures x.id != dir[0].id
        {
          DeleteMembers(dir[1..], id, x);
        }
        assert Delete(dir, id)[1..] == Delete(dir[1..], id);
      }
    }
  }

  lemma {:induction false} DeleteAllMembers(dir: seq<Snapshot>, ids: seq<string>, x: Snapshot)
    ensures x in DeleteAll(dir, ids) <==> x in dir && x.id !in ids
    decreases |ids|
  {
    if ids != [] {
      DeleteAllMembers(Delete(dir, ids[0]), ids[1..], x);
      DeleteMembers(dir, ids[0], x);
    }
  }

  lemma {:induction false} DeleteAllUnique(dir: seq<Snapshot>, ids: seq<string>)
    requires UniqueIds(dir)
    ensures UniqueIds(DeleteAll(dir, ids))
    decreases |ids|
  {
    if ids != [] {
      DeleteUnique(dir, ids[0]);
      DeleteAllUnique(Delete(dir, ids[0]), ids[1..]);
    }
  }

  lemma {:induction false} UsedUuidsMeaning(dir: seq<Snapshot>, u: string)
    ensures u in UsedUuids(dir) <==> exists x :: x in dir && u in Sentinels(x.masked)
  {
    if dir != [] {
      UsedUuidsMeaning(dir[1..], u);
    }
  }

  lemma {:induction false} UsedUuidsInclude(dir: seq<Snapshot>, x: Snapshot)
    requires x in dir
    ensures Sentinels(x.masked) <= UsedUuids(dir)
  {
    if x != dir[0] {
      UsedUuidsInclude(dir[1..], x);
    }
  }

  // ----- the listing -----

  lemma {:induction false} PlaceMembers(list: seq<Snapshot>, s: Snapshot, x: Snapshot)
    ensures x in Place(list, s) <==> x == s || x in list
  {
    if list != [] && !Before(s, list[0]) {
      PlaceMembers(list[1..], s, x);
    }
  }

  // The listing holds the snapshots of the directory and no others.
  lemma {:induction false} ListingMembers(dir: seq<Snapshot>, x: Snapshot)
    ensures x in Listing(dir) <==> x in dir
    decreases |dir|
  {
    if dir != [] {
      var n := |dir| - 1;
      ListingMembers(dir[..n], x);
      PlaceMembers(Listing(dir[..n]), dir[n], x);
      assert dir == dir[..n] + [dir[n]];
    }
  }

  // The newer first, and of two of the same age the one with the smaller id.
  ghost predicate Ordered(a: Snapshot, b: Snapshot) {
    a.time > b.time || (a.time == b.time && !Less(b.id, a.id))
  }

  ghost predicate InOrder(list: seq<Snapshot>) {
    forall i, j :: 0 <= i < j < |list| ==> Ordered(list[i], list[j])
  }

  lemma OrderedTransitive(a: Snapshot, b: Snapshot, c: Snapshot)
    requires Ordered(a, b) && Ordered(b, c)
    ensures Ordered(a, c)
  {
    if a.time == c.time && Less(c.id, a.id) {
      LessTotal(a.id, b.id);
      LessTotal(b.id, c.id);
      if a.id != b.id {
        LessTransitive(c.id, a.id, b.id);
      }
      assert false;
    }
  }

  lemma {:induction false} PlaceInOrder(list: seq<Snapshot>, s: Snapshot)
    requires InOrder(list)
    ensures InOrder(Place(list, s)) && multiset(Place(list, s)) == multiset(list) + multiset{s}
  {
    if list != [] {
      hide Less, Ordered;
      var placed := Place(list, s);
      assert list == [list[0]] + list[1..];
      if Before(s, list[0]) {
        BeforeOrdered(s, list[0]);
        forall j | 1 < j < |placed| ensures Ordered(placed[0], placed[j]) {
          assert placed[j] == list[j - 1];
          OrderedTransitive(s, list[0], list[j - 1]);
        }
      } else {
        PlaceInOrder(list[1..], s);
        NotBeforeOrdered(s, list[0]);
        forall j | 0 < j < |placed| ensures Ordered(placed[0], placed[j]) {
          PlaceMembers(list[1..], s, placed[j]);
          assert placed[j] in placed[1..];
        }
      }
    }
  }

  lemma BeforeOrdered(a: Snapshot, b: Snapshot)
    requires Before(a, b)
    ensures Ordered(a, b)
  {
    LessTotal(a.id, b.id);
  }

  lemma NotBeforeOrdered(a: Snapshot, b: Snapshot)
    requires !Before(a, b)
    ensures Ordered(b, a)
  {
  }

  lemma SplitLast(dir: seq<Snapshot>)
    requires dir != []
    ensures var n := |dir| - 1; dir == dir[..n] + [dir[n]] && multiset(dir) == multiset(dir[..n]) + multiset{dir[n]}
  {
    var n := |dir| - 1;
    assert dir == dir[..n] + [dir[n]];
  }

  lemma NothingInOrder()
    ensures InOrder([]) && multiset(Listing([])) == multiset([])
  {
  }

  // The listing is the directory, newest first and by id within the same time.
  lemma {:induction false} ListingInOrder(dir: seq<Snapshot>)
    ensures InOrder(Listing(dir)) && multiset(Listing(dir)) == multiset(dir)
    decreases |dir|
  {
    hide InOrder, Place;
    if dir == [] {
      NothingInOrder();
    } else {
      var n := |dir| - 1;
      SplitLast(dir);
      ListingInOrder(dir[..n]);
      PlaceInOrder(Listing(dir[..n]), dir[n]);
    }
  }

  lemma {:induction false} MetasAt(list: seq<Snapshot>, i: nat)
    requires i < |list|
    ensures Metas(list)[i] == R.Meta(list[i].id, Some(list[i].time))
  {
    if i > 0 {
      MetasAt(list[1..], i - 1);
    }
  }

  // ----- what a sweep takes away -----

  // What a sweep is given is newest first, so it keeps the max(count, recent) newest
  // snapshots and removes all others.
  lemma SweepKeepsTheNewest(s: Server, cfg: R.Config, now: int)
    ensures var metas := Metas(Listing(s.dir));
            var n := Min(Max(0, Max(cfg.count, R.CountRecent(metas, cfg, now))), |metas|);
            Removed(s, cfg, now) == R.Ids(metas[n..])
  {
    var list := Listing(s.dir);
    var metas := Metas(list);
    ListingInOrder(s.dir);
    forall i | 0 <= i < |metas|
      ensures metas[i].time.Some?
    {
      MetasAt(list, i);
    }
    forall i, j | 0 <= i < j < |metas|
      ensures metas[i].time.value >= metas[j].time.value
    {
      MetasAt(list, i);
      MetasAt(list, j);
      assert Ordered(list[i], list[j]);
    }
    R.KeepsTheNewest(metas, cfg, now);
  }

  lemma {:induction false} UniqueAt(dir: seq<Snapshot>, i: nat, j: nat)
    requires UniqueIds(dir) && i < j < |dir|
    ensures dir[i].id != dir[j].id
  {
    if i > 0 {
      UniqueAt(dir[1..], i - 1, j - 1);
    } else {
      assert dir[j] in dir[1..];
    }
  }

  lemma {:induction false} DistinctUnique(dir: seq<Snapshot>)
    requires forall i, j :: 0 <= i < j < |dir| ==> dir[i].id != dir[j].id
    ensures UniqueIds(dir)
  {
    if dir != [] {
      DistinctUnique(dir[1..]);
    }
  }

  lemma {:induction false} PlaceUnique(list: seq<Snapshot>, s: Snapshot)
    requires UniqueIds(list) && NoId(list, s.id)
    ensures UniqueIds(Place(list, s))
  {
    if list != [] {
      hide Before;
      if Before(s, list[0]) {
        assert Place(list, s)[1..] == list;
      } else {
        PlaceUnique(list[1..], s);
        forall x | x in Place(list[1..], s) ensures x.id != list[0].id {
          PlaceMembers(list[1..], s, x);
        }
        assert Place(list, s)[1..] == Place(list[1..], s);
      }
    }
  }

  lemma {:induction false} ListingUnique(dir: seq<Snapshot>)
    requires UniqueIds(dir)
    ensures UniqueIds(Listing(dir))
    decreases |dir|
  {
    if dir != [] {
      var n := |dir| - 1;
      forall i, j | 0 <= i < j < |dir| ensures dir[i].id != dir[j].id {
        UniqueAt(dir, i, j);
      }
      DistinctUnique(dir[..n]);
      ListingUnique(dir[..n]);
      forall x | x in Listing(dir[..n]) ensures x.id != dir[n].id {
        ListingMembers(dir[..n], x);
      }
      PlaceUnique(Listing(dir[..n]), dir[n]);
    }
  }

  // A sweep keeps a snapshot exactly when it is among the count first of the listing or
  // less than the given number of days old; nothing else comes or goes.
  lemma SweptIff(s: Server, cfg: R.Config, now: int, i: nat)
    requires UniqueIds(s.dir) && i < |Listing(s.dir)|
    ensures var x := Listing(s.dir)[i];
            x in Sweep(s, cfg, now).dir <==> i < cfg.count || now - x.time < cfg.days * 86_400_000
    ensures forall y :: y in Sweep(s, cfg, now).dir ==> y in s.dir
  {
    var list, ids := Listing(s.dir), Removed(s, cfg, now);
    var metas := Metas(list);
    ListingMembers(s.dir, list[i]);
    ListingUnique(s.dir);
    DeleteAllMembers(s.dir, ids, list[i]);
    forall y ensures y in Sweep(s, cfg, now).dir ==> y in s.dir {
      DeleteAllMembers(s.dir, ids, y);
    }
    hide R.Decided, Listing, UniqueIds, DeleteAll, Metas;
    R.RemovedIff(metas, 0, cfg, now, list[i].id);
    MetasAt(list, i);
    R.AgeInDays(metas[i], i, cfg, now);
    forall j | 0 <= j < |metas| && metas[j].id == list[i].id ensures j == i {
      MetasAt(list, j);
      if j < i { UniqueAt(list, j, i); }
      if i < j { UniqueAt(list, i, j); }
    }
  }

  lemma {:induction false} WithoutFirstCount(ids: seq<string>, id: string)
    ensures multiset(WithoutFirst(ids, id)) == multiset(ids) - multiset{id}
  {
    if ids != [] {
      assert ids == [ids[0]] + ids[1..];
      if ids[0] != id {
        WithoutFirstCount(ids[1..], id);
      }
    }
  }

  lemma MinusCons(all: multiset<string>, ids: seq<string>)
    requires ids != []
    ensures (all - multiset{ids[0]}) - multiset(ids[1..]) == all - multiset(ids)
  {
    assert ids == [ids[0]] + ids[1..];
    assert multiset(ids) == multiset{ids[0]} + multiset(ids[1..]);
  }

  lemma {:induction false} DropAllCount(entries: Entries, ids: seq<string>, u: string)
    requires u in entries
    ensures DropAll(entries, ids).Keys == entries.Keys
    ensures DropAll(entries, ids)[u].value == entries[u].value
    ensures multiset(DropAll(entries, ids)[u].referencedBy) == multiset(entries[u].referencedBy) - multiset(ids)
    decreases |ids|
  {
    if ids == [] {
      assert multiset(ids) == multiset{};
    } else {
      hide WithoutFirst;
      WithoutFirstCount(entries[u].referencedBy, ids[0]);
      MinusCons(multiset(entries[u].referencedBy), ids);
      DropAllCount(DropReferences(entries, ids[0]), ids[1..], u);
    }
  }

  // A secret stays exactly as long as some snapshot left shows it. Its value stays, and of
  // its references exactly one for every snapshot removed goes.
  lemma SweptSecret(s: Server, cfg: R.Config, now: int, u: string)
    requires u in s.vault.entries
    ensures var t := Sweep(s, cfg, now);
            && (u in t.vault.entries <==> exists x :: x in t.dir && u in Sentinels(x.masked))
            && t.vault.entries.Keys <= s.vault.entries.Keys && t.live == s.live && t.vault.next == s.vault.next
            && (u in t.vault.entries ==>
                  && t.vault.entries[u].value == s.vault.entries[u].value
                  && multiset(t.vault.entries[u].referencedBy) ==
                     multiset(s.vault.entries[u].referencedBy) - multiset(Removed(s, cfg, now)))
  {
    hide Removed, DropAll, Sentinels, UsedUuids, DeleteAll;
    DropAllCount(s.vault.entries, Removed(s, cfg, now), u);
    UsedUuidsMeaning(Sweep(s, cfg, now).dir, u);
  }
}
