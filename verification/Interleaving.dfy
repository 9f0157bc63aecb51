// Several pipelines, outside edits and retention sweeps at once: every step that the
// vault, the snapshot directory or the locked compare-and-write performs is one step of
// the system, and steps of different runs interleave freely.
module Interleaving {
  import opened Outcome
  import opened Yaml
  import opened Mask
  import opened MaskLaws
  import opened VaultStore
  import opened Snapshots
  import opened SnapshotFacts
  import opened VaultFacts
  import R = Runs

  // Where a run is. It read the live document at its start, masks it for the snapshot,
  // compares with the newest snapshot, stores, and then tries to write.
  datatype Phase =
    | Started(read: Node)
    | Holding(read: Node, masked: Node, minted: seq<string>)
    | Checked(read: Node, masked: Node, minted: seq<string>)
    | Captured(read: Node)
    | Stopped

  // A write that went through: what it replaced, what the run had read, what it wrote,
  // and the snapshots stored until then.
  datatype Commit = Commit(run: nat, replaced: Node, read: Node, content: Node, stored: seq<Snapshot>)

  datatype World = World(server: Server, runs: map<nat, Phase>, stored: seq<Snapshot>, commits: seq<Commit>)

  datatype Step =
    | Begin(run: nat)
    | MaskAny(document: Node) // masking for a diff or for the draft view
    | MaskCurrent(run: nat)
    | Check(run: nat, appliedBy: AppliedBy)
    | Store(run: nat, appliedBy: AppliedBy, now: int)
    | Write(run: nat, content: Node)
    | Stop(run: nat)
    | EditLive(content: Node)
    | DeleteSnapshot(id: string)
    | Collect(keep: set<string>)

  function Move(w: World, run: nat, phase: Phase): World {
    w.(runs := w.runs[run := phase])
  }

  function WithVault(w: World, v: VaultState): World {
    w.(server := w.server.(vault := v))
  }

  // One step; a step that is not enabled changes nothing.
  function Do(env: Env, w: World, step: Step): World {
    var s := w.server;
    match step
    case Begin(run) => if run in w.runs then w else Move(w, run, Started(s.live))
    case MaskAny(document) => WithVault(w, AfterMask(env, s.vault, document))
    case MaskCurrent(run) =>
      if run in w.runs && w.runs[run].Started? then
        var read := w.runs[run].read;
        Move(WithVault(w, AfterMask(env, s.vault, read)), run, Holding(read, MaskedWith(env, s.vault, read), MintedBy(env, s.vault, read)))
      else w
    case Check(run, appliedBy) =>
      if run in w.runs && w.runs[run].Holding? then
        var p := w.runs[run];
        if Deduped(env, s.dir, p.masked, appliedBy) then
          Move(WithVault(w, s.vault.(entries := s.vault.entries - ToSet(p.minted))), run, Captured(p.read))
        else Move(w, run, Checked(p.read, p.masked, p.minted))
      else w
    case Store(run, appliedBy, now) =>
      if run in w.runs && w.runs[run].Checked? then
        var p := w.runs[run];
        var snap := Snapshot(SnapshotId(env, now, p.masked), now, p.masked, appliedBy);
        var entries := Referenced(s.vault.entries, snap.id, p.minted);
        Move(w, run, Captured(p.read)).(server := s.(vault := s.vault.(entries := entries), dir := Put(s.dir, snap)),
                                        stored := w.stored + [snap])
      else w
    case Write(run, content) =>
      if run in w.runs && w.runs[run].Captured? then
        var read := w.runs[run].read;
        match VerifyAndWrite(env, s.live, content, env.sha(read))
        case None => Move(w, run, Stopped)
        case Some(live) =>
          Move(w, run, Stopped).(server := s.(live := live),
                                 commits := w.commits + [Commit(run, s.live, read, live, w.stored)])
      else w
    case Stop(run) => if run in w.runs then Move(w, run, Stopped) else w
    case EditLive(content) => w.(server := s.(live := content))
    case DeleteSnapshot(id) => w.(server := s.(dir := Delete(s.dir, id)))
    case Collect(keep) => WithVault(w, s.vault.(entries := Restrict(s.vault.entries, keep)))
  }

  function DoAll(env: Env, w: World, steps: seq<Step>): World
    decreases |steps|
  {
    if steps == [] then w else DoAll(env, Do(env, w, steps[0]), steps[1..])
  }

  // A masked copy of a document.
  ghost predicate CopyOf(env: Env, masked: Node, document: Node) {
    exists k: nat :: masked == Masked(document, env.fields, env.uuid, k)
  }

  ghost predicate HasCopy(env: Env, stored: seq<Snapshot>, document: Node) {
    exists x :: x in stored && CopyOf(env, x.masked, document)
  }

  ghost predicate PhaseInv(env: Env, stored: seq<Snapshot>, p: Phase) {
    match p
    case Holding(read, masked, _) => CopyOf(env, masked, read)
    case Checked(read, masked, _) => CopyOf(env, masked, read)
    case Captured(read) => HasCopy(env, stored, read)
    case _ => true
  }

  // A commit replaced exactly what the run read at its start, and a snapshot of that
  // document had been stored before.
  ghost predicate Sound(env: Env, c: Commit) {
    c.replaced == c.read && HasCopy(env, c.stored, c.read)
  }

  ghost predicate WorldInv(env: Env, w: World) {
    && (forall run :: run in w.runs ==> PhaseInv(env, w.stored, w.runs[run]))
    && (forall x :: x in w.server.dir ==> x in w.stored)
    && (forall c :: c in w.commits ==> Sound(env, c))
  }

  lemma MoveKeeps(env: Env, w: World, run: nat, p: Phase)
    requires WorldInv(env, w) && PhaseInv(env, w.stored, p)
    ensures WorldInv(env, Move(w, run, p))
  {
    hide PhaseInv, Sound;
  }

  lemma MaskedCopy(env: Env, v: VaultState, document: Node)
    ensures CopyOf(env, MaskedWith(env, v, document), document)
  {
    assert MaskedWith(env, v, document) == Masked(document, env.fields, env.uuid, v.next);
  }

  lemma CheckKeeps(env: Env, w: World, run: nat, appliedBy: AppliedBy)
    requires Injective(env.sha) && WorldInv(env, w) && run in w.runs && w.runs[run].Holding?
    ensures WorldInv(env, Do(env, w, Check(run, appliedBy)))
  {
    hide CopyOf, Sound, Listing;
    var p := w.runs[run];
    assert CopyOf(env, p.masked, p.read);
    if Deduped(env, w.server.dir, p.masked, appliedBy) {
      var newest := Listing(w.server.dir)[0];
      assert newest.masked == p.masked;
      ListingMembers(w.server.dir, newest);
      assert HasCopy(env, w.stored, p.read);
      MoveKeeps(env, w, run, Captured(p.read));
    } else {
      MoveKeeps(env, w, run, Checked(p.read, p.masked, p.minted));
    }
  }

  lemma PhaseMonotone(env: Env, stored: seq<Snapshot>, snap: Snapshot, p: Phase)
    requires PhaseInv(env, stored, p)
    ensures PhaseInv(env, stored + [snap], p)
  {
    hide CopyOf;
    if p.Captured? {
      var x :| x in stored && CopyOf(env, x.masked, p.read);
      assert x in stored + [snap];
    }
  }

  lemma StoreKeeps(env: Env, w: World, run: nat, appliedBy: AppliedBy, now: int)
    requires WorldInv(env, w) && run in w.runs && w.runs[run].Checked?
    ensures WorldInv(env, Do(env, w, Store(run, appliedBy, now)))
  {
    hide CopyOf, Sound, Put, Referenced;
    var p := w.runs[run];
    assert CopyOf(env, p.masked, p.read);
    var snap := Snapshot(SnapshotId(env, now, p.masked), now, p.masked, appliedBy);
    var t := Do(env, w, Store(run, appliedBy, now));
    forall r | r in t.runs
      ensures PhaseInv(env, t.stored, t.runs[r])
    {
      if r == run {
        assert snap in t.stored && CopyOf(env, snap.masked, p.read);
      } else {
        PhaseMonotone(env, w.stored, snap, w.runs[r]);
      }
    }
    forall x | x in t.server.dir
      ensures x in t.stored
    {
      PutMembers(w.server.dir, snap, x);
    }
  }

  lemma WriteKeeps(env: Env, w: World, run: nat, content: Node)
    requires Injective(env.sha) && WorldInv(env, w) && run in w.runs && w.runs[run].Captured?
    ensures WorldInv(env, Do(env, w, Write(run, content)))
  {
    hide CopyOf;
    var read := w.runs[run].read;
    assert HasCopy(env, w.stored, read);
    MoveKeeps(env, w, run, Stopped);
  }

  lemma DeleteKeeps(env: Env, w: World, id: string)
    requires WorldInv(env, w)
    ensures WorldInv(env, Do(env, w, DeleteSnapshot(id)))
  {
    hide PhaseInv, Sound;
    forall x | x in Delete(w.server.dir, id)
      ensures x in w.server.dir
    {
      DeleteMembers(w.server.dir, id, x);
    }
  }

  lemma StepKeeps(env: Env, w: World, step: Step)
    requires Injective(env.sha) && WorldInv(env, w)
    ensures WorldInv(env, Do(env, w, step))
  {
    hide PhaseInv, Sound, AfterMask, MaskedWith, Deduped, Put, Delete, Injective;
    match step
    case Begin(run) =>
      assert PhaseInv(env, w.stored, Started(w.server.live)) by { PhaseFree(env, w.stored, w.server.live); }
    case MaskAny(document) =>
    case MaskCurrent(run) =>
      if run in w.runs && w.runs[run].Started? {
        MaskedPhase(env, w.stored, w.server.vault, w.runs[run].read);
      }
    case Check(run, appliedBy) =>
      if run in w.runs && w.runs[run].Holding? {
        CheckKeeps(env, w, run, appliedBy);
      }
    case Store(run, appliedBy, now) =>
      if run in w.runs && w.runs[run].Checked? {
        StoreKeeps(env, w, run, appliedBy, now);
      }
    case Write(run, content) =>
      if run in w.runs && w.runs[run].Captured? {
        WriteKeeps(env, w, run, content);
      }
    case Stop(run) => PhaseFree(env, w.stored, w.server.live);
    case EditLive(content) =>
    case DeleteSnapshot(id) => DeleteKeeps(env, w, id);
    case Collect(keep) =>
  }

  lemma PhaseFree(env: Env, stored: seq<Snapshot>, read: Node)
    ensures PhaseInv(env, stored, Started(read)) && PhaseInv(env, stored, Stopped)
  {
  }

  lemma MaskedPhase(env: Env, stored: seq<Snapshot>, v: VaultState, read: Node)
    ensures PhaseInv(env, stored, Holding(read, MaskedWith(env, v, read), MintedBy(env, v, read)))
  {
    MaskedCopy(env, v, read);
  }

  lemma {:induction false} StepsKeep(env: Env, w: World, steps: seq<Step>)
    requires Injective(env.sha) && WorldInv(env, w)
    ensures WorldInv(env, DoAll(env, w, steps))
    decreases |steps|
  {
    hide WorldInv, Do;
    if steps != [] {
      StepKeeps(env, w, steps[0]);
      StepsKeep(env, Do(env, w, steps[0]), steps[1..]);
    }
  }

  // No lost update: in any interleaving, every write that goes through replaces exactly
  // what its run read at its start, and a snapshot of that was stored before the write.
  lemma NoLostUpdate(env: Env, server: Server, steps: seq<Step>, c: Commit)
    requires Injective(env.sha)
    requires c in DoAll(env, World(server, map[], server.dir, []), steps).commits
    ensures c.replaced == c.read && HasCopy(env, c.stored, c.read)
  {
    StepsKeep(env, World(server, map[], server.dir, []), steps);
  }

  // A run whose document was changed by someone else does not write.
  lemma ConflictStops(env: Env, w: World, run: nat, content: Node)
    requires Injective(env.sha) && run in w.runs && w.runs[run].Captured?
    ensures var t := Do(env, w, Write(run, content));
            && (w.server.live == w.runs[run].read <==> |t.commits| > |w.commits|)
            && (w.server.live != w.runs[run].read ==> t.server == w.server)
            && t.runs[run] == Stopped
  {
  }

  lemma DoAllCons(env: Env, w: World, step: Step, rest: seq<Step>)
    ensures DoAll(env, w, [step] + rest) == DoAll(env, Do(env, w, step), rest)
  {
    hide Do;
    assert ([step] + rest)[1..] == rest;
  }

  lemma FiveSteps(env: Env, w: World, a: Step, b: Step, c: Step, d: Step, e: Step)
    ensures DoAll(env, w, [a, b, c, d, e]) == Do(env, Do(env, Do(env, Do(env, Do(env, w, a), b), c), d), e)
  {
    hide Do;
    var x := Do(env, w, a);
    var y := Do(env, x, b);
    var z := Do(env, y, c);
    DoAllCons(env, w, a, [b, c, d, e]);
    DoAllCons(env, x, b, [c, d, e]);
    DoAllCons(env, y, c, [d, e]);
    DoAllCons(env, z, d, [e]);
    DoAllCons(env, Do(env, z, d), e, []);
    assert [a] + [b, c, d, e] == [a, b, c, d, e] && [b] + [c, d, e] == [b, c, d, e];
    assert [c] + [d, e] == [c, d, e] && [d] + [e] == [d, e] && [e] + [] == [e];
  }

  // The steps of a capture.
  function Capturing(env: Env, w: World, run: nat, appliedBy: AppliedBy, now: int): World {
    Do(env, Do(env, Do(env, Do(env, w, Begin(run)), MaskCurrent(run)), Check(run, appliedBy)), Store(run, appliedBy, now))
  }

  lemma CapturedThenWritten(env: Env, w: World, run: nat, appliedBy: AppliedBy, now: int, content: Node)
    ensures DoAll(env, w, [Begin(run), MaskCurrent(run), Check(run, appliedBy), Store(run, appliedBy, now), Write(run, content)]) ==
            Do(env, Capturing(env, w, run, appliedBy, now), Write(run, content))
  {
    hide Do, DoAll;
    FiveSteps(env, w, Begin(run), MaskCurrent(run), Check(run, appliedBy), Store(run, appliedBy, now), Write(run, content));
  }

  lemma CaptureIsCreate(env: Env, w: World, run: nat, appliedBy: AppliedBy, now: int)
    requires run !in w.runs
    ensures var created := CreateSnapshot(env, w.server, w.server.live, appliedBy, now);
            Capturing(env, w, run, appliedBy, now) ==
              World(created.0, w.runs[run := Captured(w.server.live)],
                    w.stored + (if created.1.Some? then [created.1.value] else []), w.commits)
  {
    hide AfterMask, MaskedWith, MintedBy, Deduped, SnapshotId, Referenced, Put;
    var created := CreateSnapshot(env, w.server, w.server.live, appliedBy, now);
    var t := Capturing(env, w, run, appliedBy, now);
    assert t.runs == w.runs[run := Captured(w.server.live)];
    assert w.stored + [] == w.stored;
  }

  // A run whose steps nothing comes between: the capture is that of the snapshot manager,
  // and the write replaces the document it read.
  lemma UndisturbedRun(env: Env, w: World, run: nat, appliedBy: AppliedBy, now: int, content: Node)
    requires run !in w.runs
    ensures var live := w.server.live;
            var created := CreateSnapshot(env, w.server, live, appliedBy, now);
            var stored := w.stored + if created.1.Some? then [created.1.value] else [];
            DoAll(env, w, [Begin(run), MaskCurrent(run), Check(run, appliedBy), Store(run, appliedBy, now), Write(run, content)]) ==
              World(created.0.(live := content), w.runs[run := Stopped], stored, w.commits + [Commit(run, live, live, content, stored)])
  {
    hide Capturing, CreateSnapshot, DoAll;
    CapturedThenWritten(env, w, run, appliedBy, now, content);
    CaptureIsCreate(env, w, run, appliedBy, now);
    R.CreateKeepsLive(env, w.server, w.server.live, appliedBy, now);
    var t := Capturing(env, w, run, appliedBy, now);
    assert t.runs[run := Stopped] == w.runs[run := Stopped];
  }

  // ----- collections between masking and storing -----

  // What a run has added to the vault for a snapshot it has not stored yet.
  function MintedOf(p: Phase): set<string> {
    if p.Holding? || p.Checked? then ToSet(p.minted) else {}
  }

  predicate Busy(w: World, run: nat) {
    run in w.runs && (w.runs[run].Holding? || w.runs[run].Checked?)
  }

  // Past its capture, for good.
  predicate Past(w: World, run: nat) {
    run in w.runs && (w.runs[run].Captured? || w.runs[run].Stopped?)
  }

  ghost predicate DrawnBefore(env: Env, w: World, u: string) {
    exists i: nat :: i < w.server.vault.next && env.uuid(i) == u
  }

  // Uuids that were drawn and that no other run is about to store.
  ghost predicate Apart(env: Env, w: World, run: nat, minted: set<string>) {
    && (forall r :: r in w.runs && r != run ==> MintedOf(w.runs[r]) !! minted)
    && (forall u :: u in minted ==> DrawnBefore(env, w, u))
  }

  ghost predicate AllDrawn(env: Env, w: World) {
    forall r, u :: r in w.runs && u in MintedOf(w.runs[r]) ==> DrawnBefore(env, w, u)
  }

  lemma MaskAdds(env: Env, w: World, document: Node, minted: set<string>)
    requires Distinct(env.uuid)
    ensures var v := AfterMask(env, w.server.vault, document);
            var added := ToSet(MintedBy(env, w.server.vault, document));
            && v.entries.Keys == w.server.vault.entries.Keys + added
            && (forall u :: u in added ==> !DrawnBefore(env, w, u) && DrawnBefore(env, WithVault(w, v), u))
            && (forall u :: DrawnBefore(env, w, u) ==> DrawnBefore(env, WithVault(w, v), u))
            && ((forall u :: u in minted ==> DrawnBefore(env, w, u)) ==> added !! minted)
  {
    hide Secrets;
    var next, count := w.server.vault.next, |Secrets(document, env.fields)|;
    var v := AfterMask(env, w.server.vault, document);
    AddSecretsKeys(w.server.vault.entries, Secrets(document, env.fields), env.uuid, next, []);
    MintedSeqSet(env.uuid, next, count);
    forall u | u in Minted(env.uuid, next, count)
      ensures !DrawnBefore(env, w, u) && DrawnBefore(env, WithVault(w, v), u)
    {
      var i := MintedIndex(env.uuid, next, count, u);
    }
    forall u | DrawnBefore(env, w, u)
      ensures DrawnBefore(env, WithVault(w, v), u)
    {
      var i: nat :| i < next && env.uuid(i) == u;
      assert i < v.next;
    }
  }

  lemma DrawnSame(env: Env, w: World, t: World)
    requires w.server.vault.next == t.server.vault.next
    ensures forall u :: DrawnBefore(env, w, u) == DrawnBefore(env, t, u)
  {
  }

  lemma StepDrawn(env: Env, w: World, step: Step)
    requires Distinct(env.uuid) && AllDrawn(env, w)
    ensures AllDrawn(env, Do(env, w, step))
  {
    hide AfterMask, MaskedWith, MintedBy, Deduped, Put, Delete, DrawnBefore, Restrict, Referenced, VerifyAndWrite, ToSet;
    var t := Do(env, w, step);
    match step
    case MaskAny(document) => MaskAdds(env, w, document, {});
    case MaskCurrent(run) =>
      if run in w.runs && w.runs[run].Started? {
        MaskAdds(env, w, w.runs[run].read, {});
        MaskCurrentDrawn(env, w, run);
      }
    case _ => DrawnSame(env, w, t);
  }

  lemma MaskCurrentDrawn(env: Env, w: World, run: nat)
    requires Distinct(env.uuid) && AllDrawn(env, w) && run in w.runs && w.runs[run].Started?
    ensures AllDrawn(env, Do(env, w, MaskCurrent(run)))
  {
    hide AfterMask, MaskedWith, MintedBy, DrawnBefore, ToSet;
    MaskAdds(env, w, w.runs[run].read, {});
    DrawnSame(env, WithVault(w, AfterMask(env, w.server.vault, w.runs[run].read)), Do(env, w, MaskCurrent(run)));
  }

  lemma {:induction false} StepsDrawn(env: Env, w: World, steps: seq<Step>)
    requires Distinct(env.uuid) && AllDrawn(env, w)
    ensures AllDrawn(env, DoAll(env, w, steps))
    decreases |steps|
  {
    hide AllDrawn, Do;
    if steps != [] {
      StepDrawn(env, w, steps[0]);
      StepsDrawn(env, Do(env, w, steps[0]), steps[1..]);
    }
  }

  // Nothing but a collection removes what a run has minted, and nothing brings it back.
  lemma StepMinted(env: Env, w: World, run: nat, minted: set<string>, step: Step)
    requires Distinct(env.uuid) && Apart(env, w, run, minted) && Busy(w, run)
    ensures var t := Do(env, w, step);
            || Past(t, run)
            || (&& Apart(env, t, run, minted) && Busy(t, run)
                && t.runs[run].read == w.runs[run].read && t.runs[run].masked == w.runs[run].masked && t.runs[run].minted == w.runs[run].minted
                && (minted <= t.server.vault.entries.Keys <==>
                      minted <= w.server.vault.entries.Keys && (step.Collect? ==> minted <= step.keep)))
  {
    hide AfterMask, MaskedWith, MintedBy, Deduped, Put, Delete, DrawnBefore, VerifyAndWrite, ToSet;
    var t := Do(env, w, step);
    match step
    case MaskAny(document) => MaskAdds(env, w, document, minted);
    case MaskCurrent(r) =>
      if r in w.runs && w.runs[r].Started? {
        MaskCurrentApart(env, w, run, minted, r);
      }
    case Store(r, appliedBy, now) =>
      DrawnSame(env, w, t);
      if r in w.runs && w.runs[r].Checked? {
        var p := w.runs[r];
        R.ReferencedSame(w.server.vault.entries, SnapshotId(env, now, p.masked), p.minted);
      }
    case _ => DrawnSame(env, w, t);
  }

  lemma MaskCurrentApart(env: Env, w: World, run: nat, minted: set<string>, r: nat)
    requires Distinct(env.uuid) && Apart(env, w, run, minted) && Busy(w, run)
    requires r in w.runs && w.runs[r].Started?
    ensures var t := Do(env, w, MaskCurrent(r));
            && Apart(env, t, run, minted) && t.runs[run] == w.runs[run]
            && (minted <= t.server.vault.entries.Keys <==> minted <= w.server.vault.entries.Keys)
  {
    hide AfterMask, MaskedWith, MintedBy, DrawnBefore, ToSet;
    var read := w.runs[r].read;
    MaskAdds(env, w, read, minted);
    DrawnSame(env, WithVault(w, AfterMask(env, w.server.vault, read)), Do(env, w, MaskCurrent(r)));
  }

  lemma {:induction false} StaysPast(env: Env, w: World, run: nat, steps: seq<Step>)
    requires Past(w, run)
    ensures Past(DoAll(env, w, steps), run)
    decreases |steps|
  {
    if steps != [] {
      PastStep(env, w, run, steps[0]);
      hide Do, Past;
      StaysPast(env, Do(env, w, steps[0]), run, steps[1..]);
    }
  }

  lemma PastStep(env: Env, w: World, run: nat, step: Step)
    requires Past(w, run)
    ensures Past(Do(env, w, step), run)
  {
    hide AfterMask, MaskedWith, MintedBy, Deduped, Put, Delete, Restrict, Referenced, VerifyAndWrite, ToSet;
  }

  // Every collection among the steps keeps the given uuids.
  ghost predicate AllKeep(steps: seq<Step>, minted: set<string>) {
    forall step :: step in steps && step.Collect? ==> minted <= step.keep
  }

  lemma {:induction false} StepsMinted(env: Env, w: World, run: nat, minted: set<string>, steps: seq<Step>)
    requires Distinct(env.uuid) && Apart(env, w, run, minted) && Busy(w, run)
    ensures var t := DoAll(env, w, steps);
            Busy(t, run) ==>
              && t.runs[run].read == w.runs[run].read && t.runs[run].masked == w.runs[run].masked && t.runs[run].minted == w.runs[run].minted
              && (minted <= t.server.vault.entries.Keys <==> minted <= w.server.vault.entries.Keys && AllKeep(steps, minted))
    decreases |steps|
  {
    hide Apart, Do;
    if steps != [] {
      StepMinted(env, w, run, minted, steps[0]);
      var t := Do(env, w, steps[0]);
      if Past(t, run) {
        StaysPast(env, t, run, steps[1..]);
      } else {
        StepsMinted(env, t, run, minted, steps[1..]);
        assert steps == [steps[0]] + steps[1..];
      }
    }
  }

  lemma StartApart(env: Env, w: World, run: nat)
    requires Distinct(env.uuid) && AllDrawn(env, w) && run in w.runs && w.runs[run].Started?
    ensures var t := Do(env, w, MaskCurrent(run));
            var minted := ToSet(MintedBy(env, w.server.vault, w.runs[run].read));
            Apart(env, t, run, minted) && Busy(t, run) && minted <= t.server.vault.entries.Keys
  {
    hide AfterMask, MaskedWith, MintedBy, DrawnBefore, ToSet;
    var read := w.runs[run].read;
    MaskAdds(env, w, read, {});
    DrawnSame(env, WithVault(w, AfterMask(env, w.server.vault, read)), Do(env, w, MaskCurrent(run)));
  }

  // When an interleaved snapshot resolves. Whatever happened before a run masks its
  // document, and whatever falls between that and the storing of its snapshot: right
  // after the storing, the snapshot resolves exactly when every collection in between
  // kept all the run had minted and the document's own sentinels resolve.
  lemma StoredResolvesIff(env: Env, server: Server, before: seq<Step>, run: nat, between: seq<Step>, appliedBy: AppliedBy, now: int)
    requires Distinct(env.uuid)
    requires var w := DoAll(env, World(server, map[], server.dir, []), before); run in w.runs && w.runs[run].Started?
    requires var w := DoAll(env, World(server, map[], server.dir, []), before);
             var t := DoAll(env, Do(env, w, MaskCurrent(run)), between); run in t.runs && t.runs[run].Checked?
    ensures var w := DoAll(env, World(server, map[], server.dir, []), before);
            var read := w.runs[run].read;
            var minted := Minted(env.uuid, w.server.vault.next, |Secrets(read, env.fields)|);
            var t := DoAll(env, Do(env, w, MaskCurrent(run)), between);
            var u := Do(env, t, Store(run, appliedBy, now));
            var masked := Masked(read, env.fields, env.uuid, w.server.vault.next);
            && |u.stored| == |t.stored| + 1 && u.stored[|t.stored|] in u.server.dir && u.stored[|t.stored|].masked == masked
            && (minted <= u.server.vault.entries.Keys <==> AllKeep(between, minted))
            && (Pending(masked) <= u.server.vault.entries.Keys <==>
                  AllKeep(between, minted) && Pending(read) <= u.server.vault.entries.Keys)
  {
    hide Masked, Secrets, Sentinels, Pending, Minted, DoAll, Put, AfterMask, AllKeep, Apart, AllDrawn, MintedSeq, ToSet;
    var w := DoAll(env, World(server, map[], server.dir, []), before);
    StepsDrawn(env, World(server, map[], server.dir, []), before) by { NobodyDrawn(env, server); }
    StartApart(env, w, run);
    var read, next := w.runs[run].read, w.server.vault.next;
    MintedSeqSet(env.uuid, next, |Secrets(read, env.fields)|);
    MaskedSentinels(read, env.fields, env.uuid, next);
    var w1 := Do(env, w, MaskCurrent(run));
    StepsMinted(env, w1, run, Minted(env.uuid, next, |Secrets(read, env.fields)|), between);
    StoreFacts(env, DoAll(env, w1, between), run, appliedBy, now);
  }

  lemma NobodyDrawn(env: Env, server: Server)
    ensures AllDrawn(env, World(server, map[], server.dir, []))
  {
  }

  lemma StoreFacts(env: Env, t: World, run: nat, appliedBy: AppliedBy, now: int)
    requires run in t.runs && t.runs[run].Checked?
    ensures var u := Do(env, t, Store(run, appliedBy, now));
            && |u.stored| == |t.stored| + 1 && u.stored[|t.stored|] in u.server.dir
            && u.stored[|t.stored|].masked == t.runs[run].masked
            && u.server.vault.entries.Keys == t.server.vault.entries.Keys
  {
    hide Put;
    var p := t.runs[run];
    PutIn(t.server.dir, Snapshot(SnapshotId(env, now, p.masked), now, p.masked, appliedBy));
    R.ReferencedSame(t.server.vault.entries, SnapshotId(env, now, p.masked), p.minted);
  }

  // A sweep keeps what the snapshots in the directory use. One that falls between the
  // masking and the storing of a document with a secret takes that secret away.
  lemma SweepRace(env: Env, now: int)
    requires Distinct(env.uuid) && env.fields == DEFAULT_SECRET_FIELDS
    ensures var read := Map([Pair(Leaf(Str("password")), Leaf(Str("pw")))]);
            var w := Do(env, World(Server(read, VaultState(map[], 0), []), map[], [], []), Begin(0));
            var t := DoAll(env, Do(env, w, MaskCurrent(0)), [Collect(UsedUuids(w.server.dir)), Check(0, User)]);
            var u := Do(env, t, Store(0, User, now));
            && |u.stored| == 1 && u.stored[0] in u.server.dir
            && !(Pending(u.stored[0].masked) <= u.server.vault.entries.Keys)
  {
    hide Masked, Secrets, Sentinels, Pending, AfterMask, Put;
    var read := R.OneSecret(env.fields);
    var server := Server(read, VaultState(map[], 0), []);
    var w0 := World(server, map[], [], []);
    var w := Do(env, w0, Begin(0));
    assert DoAll(env, w0, [Begin(0)]) == w by {
      assert [Begin(0)][1..] == [];
    }
    var between := [Collect(UsedUuids(w.server.dir)), Check(0, User)];
    TwoSteps(env, Do(env, w, MaskCurrent(0)), between[0], between[1]);
    StoredResolvesIff(env, server, [Begin(0)], 0, between, User, now);
    assert env.uuid(0) in Minted(env.uuid, 0, 1);
    assert UsedUuids([]) == {};
    assert between[0] in between && !AllKeep(between, Minted(env.uuid, 0, 1));
  }

  lemma TwoSteps(env: Env, w: World, a: Step, b: Step)
    ensures DoAll(env, w, [a, b]) == Do(env, Do(env, w, a), b)
  {
    hide Do;
    assert [a, b][1..] == [b] && [b][1..] == [];
    assert DoAll(env, Do(env, w, a), [b]) == Do(env, Do(env, w, a), b);
  }

  lemma PutIn(dir: seq<Snapshot>, s: Snapshot)
    ensures s in Put(dir, s)
  {
    PutFound(dir, s);
    FindMember(Put(dir, s), s.id);
  }
}
