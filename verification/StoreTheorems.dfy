/** What the checkpoint store guarantees across its operations. */
module StoreTheorems {
  import opened Wrappers
  import opened FileTree
  import opened Steps
  import opened Undo
  import opened UndoTheorems
  import opened UndoInverse
  import opened UndoSession
  import opened UndoRun
  import opened StoreState
  import opened StoreInvariants
  import opened StoreTrail
  import opened StepBegin
  import opened StepIntent
  import opened CheckpointStore

  // ----- No live step loses its snapshot -----------------------------------------------------------------

  /** Whatever moment a crash comes at, every step left on disk can be undone from the blobs left there. */
  lemma EveryStepKeepsItsSnapshot(d: Disk, k: Key)
    requires Recoverable(d) && k in d.steps
    ensures StepBlobsVerify(d.blobs, d.steps[k])
  {
    assert Inside(d);
    var m := d.steps[k];
    forall i | 0 <= i < |m.entries| && m.entries[i].before.WasFile?
      ensures BlobVerifies(d.blobs, m.entries[i].before.blob)
    {
      assert m.entries[i].before.blob in Referenced(d.steps);
    }
  }

  /** An undo that passes its check touches no path of a step in flight. */
  lemma UndoSparesInFlight(
      fs: Tree, seen: BlobStore, steps: StepMap, busy: set<Path>, ms: seq<Manifest>, k: Key)
    requires InFlight(steps, busy) && Passes(fs, seen, busy, ms) && k in steps && steps[k].status == Prepared
    ensures Listed(ms) !! steps[k].Paths()
  {
    NoBusyPath(ms, busy);
    LookInsideFlight(steps, busy);
  }

  // ----- The cap ----------------------------------------------------------------------------------------------

  lemma {:induction false} EvictionsOnlyDropBlobs(c: Kept, ks: seq<Key>)
    ensures EvictAll(c, ks).blobs <= c.blobs
    decreases |ks|
  {
    if ks != [] {
      EvictionsOnlyDropBlobs(Evict(c, ks[0]), ks[1..]);
    }
  }

  /** The size after a step was begun: what pruning left, the snapshots that were counted, and those that
      were not counted because they were in the store, but that the pruning then collected. */
  lemma SizeAfterBegin(before: Kept, evicted: seq<Key>, files: set<Hex>)
    ensures var kept := EvictAll(before, evicted).blobs;
            Total(kept + files) == Total(kept) + Total(files - before.blobs) + Total((files * before.blobs) - kept)
  {
    EvictionsOnlyDropBlobs(before, evicted);
    var kept := EvictAll(before, evicted).blobs;
    var counted, lost := files - before.blobs, (files * before.blobs) - kept;
    assert kept + files == kept + counted + lost;
    TotalOfBoth(kept, counted);
    TotalOfBoth(kept + counted, lost);
  }

  /** Of a begun step: its snapshots that were in the store, but only for steps that were then evicted. */
  ghost function Lost(before: Kept, evicted: seq<Key>, entries: seq<Entry>): (hs: set<Hex>) {
    (FilesOf(entries) * before.blobs) - EvictAll(before, evicted).blobs
  }

  /** After a step was begun the cap is exceeded exactly when those do not fit into the room the pruning left,
      by no more than their size, and never when nothing was evicted. */
  lemma CapHoldsExactlyWhen(
      fs: Tree, sid: SessionId, root: Path, rootGiven: seq<Component>, changes: seq<Change>,
      cap: nat, maxFileBytes: nat, before: Kept, busyBefore: set<Path>,
      n: nat, evicted: seq<Key>, after: Kept, busyAfter: set<Path>)
    requires Begun(fs, sid, root, rootGiven, changes, cap, maxFileBytes, before, busyBefore, Ok(n), evicted, after, busyAfter)
    ensures Screened(fs, root, rootGiven, changes, busyBefore, maxFileBytes).Ok?
    ensures var entries := Screened(fs, root, rootGiven, changes, busyBefore, maxFileBytes).value.1;
            var lost := Total(Lost(before, evicted, entries));
            var room := cap - Total(EvictAll(before, evicted).blobs) - Total(FilesOf(entries) - before.blobs);
            && room >= 0
            && (Total(after.blobs) <= cap <==> lost <= room)
            && Total(after.blobs) <= cap + lost
            && (evicted == [] ==> Lost(before, evicted, entries) == {} && Total(after.blobs) <= cap)
  {
    var entries := Screened(fs, root, rootGiven, changes, busyBefore, maxFileBytes).value.1;
    SizeAfterBegin(before, evicted, FilesOf(entries));
    if evicted == [] {
      assert (FilesOf(entries) * before.blobs) - before.blobs == {};
    }
  }

  // ----- Refused steps ---------------------------------------------------------------------------------

  lemma {:induction false} EvictionsOnlyDropSteps(c: Kept, ks: seq<Key>)
    ensures EvictAll(c, ks).steps.Keys <= c.steps.Keys
    decreases |ks|
  {
    if ks != [] {
      EvictionsOnlyDropSteps(Evict(c, ks[0]), ks[1..]);
    }
  }

  /** Pruning that ends with nothing left to evict has evicted nothing exactly when there was nothing to
      evict. */
  lemma NothingToEvict(before: Kept, ks: seq<Key>, needed: nat, cap: nat)
    requires Justified(before, ks, needed, cap) && forall k :: !Evictable(EvictAll(before, ks).steps, k)
    ensures ks == [] <==> forall k :: !Evictable(before.steps, k)
    ensures ks == [] <==> EvictAll(before, ks) == before
  {
    if ks == [] {
      assert EvictAll(before, ks) == before;
      assert forall k :: Evictable(before.steps, k) <==> Evictable(EvictAll(before, ks).steps, k);
    } else {
      assert IsVictim(before.steps, before.metas, ks[0]) && Evictable(before.steps, ks[0]);
      EvictionsOnlyDropSteps(Evict(before, ks[0]), ks[1..]);
      assert ks[0] !in EvictAll(before, ks).steps;
    }
  }

  lemma {:induction false} PlansAreRefused(fs: Tree, root: Path, rootGiven: seq<Component>, changes: seq<Change>)
    requires PlansOf(fs, root, rootGiven, changes).Err?
    ensures PlansOf(fs, root, rootGiven, changes).error == PathRefused
    decreases |changes|
  {
    if PlansOf(fs, root, rootGiven, changes[..|changes| - 1]).Err? {
      PlansAreRefused(fs, root, rootGiven, changes[..|changes| - 1]);
    }
  }

  lemma {:induction false} EntriesAreRefused(fs: Tree, plans: seq<Plan>, maxFileBytes: nat)
    requires EntriesOf(fs, plans, maxFileBytes).Err?
    ensures !EntriesOf(fs, plans, maxFileBytes).error.StoreFull?
    decreases |plans|
  {
    if EntriesOf(fs, plans[..|plans| - 1], maxFileBytes).Err? {
      EntriesAreRefused(fs, plans[..|plans| - 1], maxFileBytes);
    }
  }

  lemma ScreeningIsNotAboutRoom(
      fs: Tree, root: Path, rootGiven: seq<Component>, changes: seq<Change>, busy: set<Path>, maxFileBytes: nat)
    requires Screened(fs, root, rootGiven, changes, busy, maxFileBytes).Err?
    ensures !Screened(fs, root, rootGiven, changes, busy, maxFileBytes).error.StoreFull?
  {
    if root in fs && fs[root] == Dir {
      var plans := PlansOf(fs, root, rootGiven, changes);
      if plans.Err? {
        PlansAreRefused(fs, root, rootGiven, changes);
      } else if EntriesOf(fs, plans.value, maxFileBytes).Err? {
        EntriesAreRefused(fs, plans.value, maxFileBytes);
      }
    }
  }

  /** A refused step records nothing, and it leaves the store as it was except when it was refused for want of
      room and there was a step that could be evicted. */
  lemma RefusedStepChangesExactly(
      fs: Tree, sid: SessionId, root: Path, rootGiven: seq<Component>, changes: seq<Change>,
      cap: nat, maxFileBytes: nat, before: Kept, busyBefore: set<Path>,
      e: Error, evicted: seq<Key>, after: Kept, busyAfter: set<Path>)
    requires Begun(fs, sid, root, rootGiven, changes, cap, maxFileBytes, before, busyBefore, Err(e), evicted, after, busyAfter)
    ensures busyAfter == busyBefore && after.steps.Keys <= before.steps.Keys
    ensures after == before <==> !(e.StoreFull? && exists k :: Evictable(before.steps, k))
  {
    EvictionsOnlyDropSteps(before, evicted);
    var screened := Screened(fs, root, rootGiven, changes, busyBefore, maxFileBytes);
    if screened.Err? {
      ScreeningIsNotAboutRoom(fs, root, rootGiven, changes, busyBefore, maxFileBytes);
    } else if e.StoreFull? {
      NothingToEvict(before, evicted, e.needed, cap);
    }
  }

  /** A begin of these changes evicts the step `k` first. */
  ghost predicate Evicts(
      fs: Tree, root: Path, rootGiven: seq<Component>, changes: seq<Change>, cap: nat, maxFileBytes: nat,
      before: Kept, busy: set<Path>, k: Key)
  {
    match Screened(fs, root, rootGiven, changes, busy, maxFileBytes)
    case Err(_) => false
    case Ok((_, entries)) =>
      var needed := Total(FilesOf(entries) - before.blobs);
      needed <= cap && Justified(before, [k], needed, cap)
  }

  // ----- Lives of a store ------------------------------------------------------------------------------

  /** What the disk went through from one opening on, as far as it came: to a crash, or to the present. */
  datatype Life = Life(trail: seq<Moment>, ended: nat)

  /** Lives of one store directory, each opened on the disk the one before it left. */
  ghost predicate Lives(ls: seq<Life>) {
    && ls != []
    && (forall l :: 0 <= l < |ls| ==> Lived(ls[l]))
    && (forall l :: 0 < l < |ls| ==> OpensOn(ls[l - 1], ls[l]))
  }

  ghost predicate Lived(life: Life) {
    Story(life.trail) && life.ended < |life.trail| && life.trail[0].evicting.None?
  }

  ghost predicate OpensOn(before: Life, life: Life)
    requires Lived(before) && Lived(life)
  {
    before.trail[before.ended].disk == life.trail[0].disk
  }

  function Present(ls: seq<Life>): (d: Disk)
    requires ls != [] && ls[|ls| - 1].ended < |ls[|ls| - 1].trail|
  {
    ls[|ls| - 1].trail[ls[|ls| - 1].ended].disk
  }

  /** No life ended at a moment that makes the next one forget the session's last number. */
  ghost predicate NothingForgotten(ls: seq<Life>, sid: SessionId)
    requires Lives(ls)
  {
    forall l :: 0 <= l < |ls| - 1 ==> !Forgotten(ls[l].trail[ls[l].ended], sid)
  }

  /** Then the next life knows the number. */
  lemma LastCarriesOver(a: Moment, b: Moment, sid: SessionId)
    requires Safe(a) && Safe(b) && a.disk == b.disk && b.evicting.None? && !Forgotten(a, sid)
    ensures LastIn(b.last, sid) == LastIn(a.last, sid)
  {
    assert InsideMoment(a) && InsideMoment(b);
    var metas, floor := SomeMemoryFits(a.disk);
    assert MetaOf(metas, sid).lastSeq <= LastIn(a.last, sid);
  }

  lemma RestOfLives(ls: seq<Life>, sid: SessionId)
    requires Lives(ls) && |ls| > 1 && NothingForgotten(ls, sid)
    ensures Lives(ls[1..]) && NothingForgotten(ls[1..], sid) && Present(ls[1..]) == Present(ls)
  {
    var rest := ls[1..];
    forall l | 0 < l < |rest| ensures OpensOn(rest[l - 1], rest[l]) {
      assert OpensOn(ls[l], ls[l + 1]);
    }
    forall l | 0 <= l < |rest| - 1 ensures !Forgotten(rest[l].trail[rest[l].ended], sid) {
      assert !Forgotten(ls[l + 1].trail[ls[l + 1].ended], sid);
    }
  }

  lemma OneLifeOn(ls: seq<Life>, sid: SessionId)
    requires Lives(ls) && |ls| > 1 && NothingForgotten(ls, sid)
    ensures ls[0].trail[ls[0].ended].disk == ls[1].trail[0].disk
    ensures LastIn(ls[1].trail[0].last, sid) == LastIn(ls[0].trail[ls[0].ended].last, sid)
  {
    assert OpensOn(ls[0], ls[1]);
    assert InsideStory(ls[0].trail) && InsideStory(ls[1].trail);
    assert !Forgotten(ls[0].trail[ls[0].ended], sid);
    LastCarriesOver(ls[0].trail[ls[0].ended], ls[1].trail[0], sid);
  }

  /** A step that is gone does not come back, in this life or a later one. */
  lemma {:induction false} GoneForGood(ls: seq<Life>, i: nat, k: Key)
    requires Lives(ls) && NothingForgotten(ls, k.0) && i <= ls[0].ended
    requires k !in ls[0].trail[i].disk.steps && k.1 <= LastIn(ls[0].trail[i].last, k.0)
    ensures k !in Present(ls).steps
    decreases |ls|
  {
    var life := ls[0];
    GoneStaysGone(life.trail, i, life.ended, k);
    LastGrows(life.trail, i, life.ended, k.0);
    if |ls| > 1 {
      OneLifeOn(ls, k.0);
      RestOfLives(ls, k.0);
      GoneForGood(ls[1..], 0, k);
    }
  }

  lemma {:induction false} LastGrows(trail: seq<Moment>, i: nat, j: nat, sid: SessionId)
    requires Story(trail) && i <= j < |trail|
    ensures LastIn(trail[i].last, sid) <= LastIn(trail[j].last, sid)
    decreases j - i
  {
    if i < j {
      Next(trail, i);
      LastGrows(trail, i + 1, j, sid);
    }
  }

  lemma NumberIsKnown(m: Moment, k: Key)
    requires Safe(m) && m.evicting.None? && k in m.disk.steps
    ensures k.1 <= LastIn(m.last, k.0)
  {
    assert InsideMoment(m);
    var metas, floor := SomeMemoryFits(m.disk);
    assert MetaOf(metas, k.0).lastSeq <= LastIn(m.last, k.0);
  }

  /** Whatever the store does, and however often it crashes and is opened again: a step that was recorded and
      is there at present is the same step, perhaps in a later status. */
  lemma {:induction false} StepIsTheSame(ls: seq<Life>, i: nat, k: Key)
    requires Lives(ls) && NothingForgotten(ls, k.0) && i <= ls[0].ended && ls[0].trail[i].evicting.None?
    requires k in ls[0].trail[i].disk.steps && k in Present(ls).steps
    ensures SameStep(ls[0].trail[i].disk.steps[k], Present(ls).steps[k])
    decreases |ls|
  {
    var life := ls[0];
    assert InsideStory(life.trail);
    NumberIsKnown(life.trail[i], k);
    if k !in life.trail[life.ended].disk.steps {
      LastGrows(life.trail, i, life.ended, k.0);
      GoneForGood(ls, life.ended, k);
    }
    KeptIsSame(life.trail, i, life.ended, k);
    if |ls| > 1 {
      OneLifeOn(ls, k.0);
      RestOfLives(ls, k.0);
      StepIsTheSame(ls[1..], 0, k);
      SameStepChains(life.trail[i].disk.steps[k], life.trail[life.ended].disk.steps[k], Present(ls).steps[k]);
    }
  }

  // ----- Pruned through a number, and exactly that ------------------------------------------------------

  /** What an undo of a missing step answers is right just if the session is exact: each number given out is
      kept, or it is among those called pruned. */
  lemma PrunedIsSaidExactly(
      steps: StepMap, metas: MetaMap, blobs: map<Hex, nat>, tick: nat, floor: map<SessionId, nat>, disk: Disk,
      sid: SessionId)
    requires Sane(steps, metas, blobs, tick, floor, disk)
    ensures Exact(steps, MetaOf(metas, sid), sid) <==> Whole(disk, sid)
    ensures Exact(steps, MetaOf(metas, sid), sid) <==>
            forall n: nat :: 0 < n <= MetaOf(metas, sid).lastSeq && (sid, n) !in steps ==> n <= MetaOf(metas, sid).prunedThrough
  {
    LookInside(steps, metas, blobs, tick, floor, disk);
    WholeIs(disk, metas, floor, sid);
  }

  /** The life ended amid an eviction of the session, and there is something left to show the gap. */
  ghost predicate LeavesGap(life: Life, sid: SessionId)
    requires Lived(life)
  {
    CutShort(life.trail[life.ended], sid) && !Emptied(life.trail[life.ended], sid)
  }

  /** An eviction of the session was carried through, or left nothing to show a gap. */
  ghost predicate ClosesGap(life: Life, sid: SessionId)
    requires Lived(life)
  {
    if CutShort(life.trail[life.ended], sid) then Emptied(life.trail[life.ended], sid)
    else Evicted(life.trail, life.ended, sid)
  }

  /** The last of these lives that says anything leaves no gap. */
  ghost predicate NoGapLeft(ls: seq<Life>, sid: SessionId)
    requires Lives(ls)
  {
    || ((exists l :: 0 <= l < |ls| && ClosesGap(ls[l], sid) && forall l1 :: l < l1 < |ls| ==> !LeavesGap(ls[l1], sid)))
    || (Whole(ls[0].trail[0].disk, sid) && forall l :: 0 <= l < |ls| ==> !LeavesGap(ls[l], sid))
  }

  lemma {:induction false} FirstLives(ls: seq<Life>)
    requires Lives(ls) && |ls| > 1
    ensures Lives(ls[..|ls| - 1]) && Present(ls[..|ls| - 1]) == ls[|ls| - 1].trail[0].disk
  {
    var n := |ls| - 1;
    forall l | 0 < l < n ensures OpensOn(ls[..n][l - 1], ls[..n][l]) {
      assert OpensOn(ls[l - 1], ls[l]);
    }
    assert OpensOn(ls[n - 1], ls[n]);
  }

  lemma {:induction false} NoGapInOne(ls: seq<Life>, sid: SessionId)
    requires Lives(ls)
    ensures var life := ls[|ls| - 1];
            NoGapLeft(ls, sid) <==>
              || ClosesGap(life, sid)
              || (!LeavesGap(life, sid)
                  && if |ls| == 1 then Whole(life.trail[0].disk, sid)
                     else Lives(ls[..|ls| - 1]) && NoGapLeft(ls[..|ls| - 1], sid))
  {
    var n := |ls| - 1;
    if n > 0 {
      FirstLives(ls);
      assert forall l :: 0 <= l < n ==> ls[..n][l] == ls[l];
    }
  }

  /** Over any number of lives and crashes: a session keeps exactly the numbers given out above those it calls
      pruned, unless a life ended amid one of its evictions and none has been carried through since. */
  lemma {:induction false} WholeExactlyWhen(ls: seq<Life>, sid: SessionId)
    requires Lives(ls)
    ensures Whole(Present(ls), sid) <==> NoGapLeft(ls, sid)
    decreases |ls|
  {
    var life := ls[|ls| - 1];
    WholeAtExactly(life.trail, life.ended, sid);
    NoGapInOne(ls, sid);
    if |ls| > 1 {
      FirstLives(ls);
      WholeExactlyWhen(ls[..|ls| - 1], sid);
    }
  }

  // ----- Begin, then undo -----------------------------------------------------------------------------------------

  lemma SameStepRecordsTheSame(fs0: Tree, fs1: Tree, blobs: BlobStore, m: Manifest, done: Manifest)
    requires SameStep(m, done)
    ensures Captured(fs0, m) ==> Captured(fs0, done)
    ensures StepBlobsVerify(blobs, m) ==> StepBlobsVerify(blobs, done)
    ensures Created(done) == Created(m) && done.Paths() == m.Paths() && (m.Sound() ==> done.Sound())
    ensures OnlyTheStep(fs0, fs1, m) ==> OnlyTheStep(fs0, fs1, done)
  {
    SameStepSame(m, done);
    assert forall i :: 0 <= i < |m.entries| ==>
             done.entries[i].path == m.entries[i].path && done.entries[i].before == m.entries[i].before;
    if Captured(fs0, m) {
      forall i | 0 <= i < |done.entries| ensures Holds(fs0, done.Abs(i), done.entries[i].before) {
        assert Holds(fs0, m.Abs(i), m.entries[i].before);
      }
    }
  }

  lemma CommitRecordsWhatIsThere(fs: Tree, m: Manifest)
    requires forall q :: q in m.Paths() ==> ParentsOk(fs, q)
    ensures var done := FinishedStep(m, true, p => FingerprintNow(fs, p));
            done.Ok? && SameStep(m, done.value) && EachBeforeOrAfter(fs, done.value)
  {
    var now := p => FingerprintNow(fs, p);
    assert forall i :: 0 <= i < |m.entries| ==> m.root + m.entries[i].path in m.Paths();
    AllRead(m.root, m.entries, now, fs, m.Paths());
    FinishedIsSame(m, true, now);
    AfterIsRecorded(m.root, m.entries, now);
    var done := FinishedStep(m, true, now).value;
    forall i | 0 <= i < |done.entries|
      ensures FingerprintNow(fs, done.Abs(i)) == Ok(done.entries[i].Post())
    {
      assert now(m.root + done.entries[i].path) == Ok(done.entries[i].Post());
    }
  }

  /** A step that was begun on `fs0` and committed on `fs1`, whatever it wrote to its paths, is undone to
      `fs0` as long as nothing else changed. */
  lemma CommittedStepIsUndone(fs0: Tree, fs1: Tree, blobs: BlobStore, m: Manifest)
    requires Wf(fs0) && m.Sound() && PrefixFree(m.Paths()) && Captured(fs0, m) && StepBlobsVerify(blobs, m)
    requires Restorable(fs1, m.Paths()) && OnlyTheStep(fs0, fs1, m)
    ensures var done := FinishedStep(m, true, p => FingerprintNow(fs1, p));
            done.Ok? && CheckedUndo(fs1, blobs, StepActions(done.value)) == Ok(fs0)
  {
    CommitRecordsWhatIsThere(fs1, m);
    var done := FinishedStep(m, true, p => FingerprintNow(fs1, p)).value;
    SameStepRecordsTheSame(fs0, fs1, blobs, m, done);
    UndoGivesTheTreeBack(fs0, fs1, blobs, done);
  }

  lemma {:induction false} AllRead(
      root: Path, entries: seq<Entry>, now: Path -> Result<Fingerprint, Error>, fs: Tree, paths: set<Path>)
    requires forall p :: now(p) == FingerprintNow(fs, p)
    requires forall i :: 0 <= i < |entries| ==> root + entries[i].path in paths
    requires forall q :: q in paths ==> ParentsOk(fs, q)
    ensures AfterOf(root, entries, now).Ok?
    decreases |entries|
  {
    if entries != [] {
      var n := |entries| - 1;
      AllRead(root, entries[..n], now, fs, paths);
      assert root + entries[n].path in paths;
    }
  }

  lemma BegunStepIsCaptured(
      fs0: Tree, sid: SessionId, root: Path, rootGiven: seq<Component>, changes: seq<Change>,
      cap: nat, maxFileBytes: nat, before: Kept, busyBefore: set<Path>,
      n: nat, evicted: seq<Key>, after: Kept, busyAfter: set<Path>)
    requires Wf(fs0)
    requires Begun(fs0, sid, root, rootGiven, changes, cap, maxFileBytes, before, busyBefore, Ok(n), evicted, after, busyAfter)
    ensures (sid, n) in after.steps && after.steps[(sid, n)].root == root
    ensures after.steps[(sid, n)].Sound() && Captured(fs0, after.steps[(sid, n)])
    ensures root in fs0 && fs0[root] == Dir
  {
    var (plans, entries) := Screened(fs0, root, rootGiven, changes, busyBefore, maxFileBytes).value;
    ScreenedMeans(fs0, root, rootGiven, changes, busyBefore, maxFileBytes);
    ScreenedManifest(fs0, sid, n, root, entries, plans, maxFileBytes);
  }

  /** At each of its paths a begun step accepts just two states, whatever its status: what was there before it
      began, and what the change the tool announced leaves there; or, once it was committed, what was found. */
  lemma BegunStepExpectsItsChanges(
      fs0: Tree, sid: SessionId, root: Path, rootGiven: seq<Component>, changes: seq<Change>,
      cap: nat, maxFileBytes: nat, before: Kept, busyBefore: set<Path>,
      n: nat, evicted: seq<Key>, after: Kept, busyAfter: set<Path>, m: Manifest, fs: Tree)
    requires Wf(fs0)
    requires Begun(fs0, sid, root, rootGiven, changes, cap, maxFileBytes, before, busyBefore, Ok(n), evicted, after, busyAfter)
    requires (sid, n) in after.steps && SameStep(after.steps[(sid, n)], m)
    requires forall i :: 0 <= i < |m.entries| ==> ParentsOk(fs, m.Abs(i))
    ensures EachBeforeOrAfter(fs, m) <==> AsWasOrChanged(fs0, root, rootGiven, changes, m, fs)
  {
    var (plans, entries) := Screened(fs0, root, rootGiven, changes, busyBefore, maxFileBytes).value;
    ScreenedMeans(fs0, root, rootGiven, changes, busyBefore, maxFileBytes);
    StepExpectsItsChanges(fs0, sid, n, root, rootGiven, changes, plans, entries, maxFileBytes, m, fs);
  }

  lemma PresentIsRecoverable(ls: seq<Life>)
    requires Lives(ls)
    ensures Recoverable(Present(ls))
  {
    assert InsideStory(ls[|ls| - 1].trail);
  }

  /** What an undo checks besides conflicts holds of a step alone, if the folder is where it was. */
  lemma StepPasses(fs0: Tree, fs1: Tree, seen: BlobStore, busy: set<Path>, m: Manifest)
    requires m.Sound() && m.root in fs0 && fs0[m.root] == Dir && OnlyTheStep(fs0, fs1, m)
    requires PrefixFree(m.Paths()) && Restorable(fs1, m.Paths()) && EachBeforeOrAfter(fs1, m)
    requires StepBlobsVerify(seen, m) && Captured(fs0, m) && m.Paths() !! busy
    ensures Passes(fs1, seen, busy, [m])
  {
    StepPassesCheck(fs1, seen, m);
    assert [m][1..] == [] && Actions([m]) == StepActions(m) + Actions([]);
    assert StepActions(m) + [] == StepActions(m);
    NoBusyPath([m], busy);
    assert Listed([m]) == m.Paths() + Listed([]);
    assert m.root !in m.Paths() by {
      if i :| 0 <= i < |m.entries| && m.root + m.entries[i].path == m.root {
        assert |m.root + m.entries[i].path| == |m.root|;
      }
    }
    assert m.root !in Created(m);
    forall i | 0 <= i < |m.entries| ensures RelParentsOk(fs1, m.root, m.entries[i].path) {
      assert m.Abs(i) in m.Paths();
      ParentsBelowRoot(fs1, m.root, m.entries[i].path);
    }
  }

  lemma ParentsBelowRoot(fs: Tree, root: Path, rel: Path)
    requires ParentsOk(fs, root + rel)
    ensures RelParentsOk(fs, root, rel)
  {
    forall i | 0 < i < |rel| ensures DirOrMissing(fs, Ancestor(root, rel, i)) {
      assert (root + rel)[..|root| + i] == Ancestor(root, rel, i);
    }
  }

  lemma ListedAreThere(fs: Tree, m: Manifest)
    requires Restorable(fs, m.Paths())
    ensures forall i :: 0 <= i < |m.entries| ==> ParentsOk(fs, m.Abs(i))
  {
    assert forall i :: 0 <= i < |m.entries| ==> m.root + m.entries[i].path in m.Paths();
  }

  /** From begin to undo. A step begun on `fs0`, whatever the store did since, with crashes and reopenings, as
      long as the step is kept: with uncorrupted blobs its undo passes every check that is not about other
      steps in flight, and if only the step changed the folder, each of its paths as its own change leaves it or
      not changed at all, gives back `fs0`. */
  lemma BegunStepIsUndone(
      fs0: Tree, sid: SessionId, root: Path, rootGiven: seq<Component>, changes: seq<Change>,
      cap: nat, maxFileBytes: nat, before: Kept, busyBefore: set<Path>,
      n: nat, evicted: seq<Key>, after: Kept, busyAfter: set<Path>,
      ls: seq<Life>, i: nat, fs1: Tree, busy: set<Path>)
    requires Wf(fs0)
    requires Begun(fs0, sid, root, rootGiven, changes, cap, maxFileBytes, before, busyBefore, Ok(n), evicted, after, busyAfter)
    requires Lives(ls) && NothingForgotten(ls, sid)
    requires i <= ls[0].ended && ls[0].trail[i].evicting.None? && ls[0].trail[i].disk.steps == after.steps
    requires (sid, n) in Present(ls).steps
    requires var m := Present(ls).steps[(sid, n)];
             && PrefixFree(m.Paths()) && Restorable(fs1, m.Paths())
             && OnlyTheStep(fs0, fs1, m) && AsWasOrChanged(fs0, root, rootGiven, changes, m, fs1) && m.Paths() !! busy
    ensures var m, seen := Present(ls).steps[(sid, n)], Present(ls).blobs;
            && StepBlobsVerify(seen, m) && Passes(fs1, seen, busy, [m])
            && CheckedUndo(fs1, seen, StepActions(m)) == Ok(fs0)
  {
    var k: Key := (sid, n);
    var m, seen := Present(ls).steps[k], Present(ls).blobs;
    BegunStepIsCaptured(fs0, sid, root, rootGiven, changes, cap, maxFileBytes, before, busyBefore, n, evicted, after, busyAfter);
    StepIsTheSame(ls, i, k);
    SameStepRecordsTheSame(fs0, fs1, seen, after.steps[k], m);
    ListedAreThere(fs1, m);
    BegunStepExpectsItsChanges(fs0, sid, root, rootGiven, changes, cap, maxFileBytes, before, busyBefore, n, evicted,
                               after, busyAfter, m, fs1);
    PresentIsRecoverable(ls);
    EveryStepKeepsItsSnapshot(Present(ls), k);
    StepPasses(fs0, fs1, seen, busy, m);
    UndoGivesTheTreeBack(fs0, fs1, seen, m);
  }

  // ----- A whole session ----------------------------------------------------------------------------------

  /** How a step was begun, and the moment its begin ended. */
  datatype Beginning = Beginning(
    rootGiven: seq<Component>, changes: seq<Change>, cap: nat, maxFileBytes: nat,
    before: Kept, busyBefore: set<Path>, evicted: seq<Key>, after: Kept, busyAfter: set<Path>, life: nat, at: nat)

  /** The step `m`, still kept at present, was begun like this on `fs0`. */
  ghost predicate WasBegun(ls: seq<Life>, b: Beginning, fs0: Tree, m: Manifest)
    requires Lives(ls)
  {
    && Begun(fs0, m.session, m.root, b.rootGiven, b.changes, b.cap, b.maxFileBytes, b.before, b.busyBefore,
             Ok(m.seqNo), b.evicted, b.after, b.busyAfter)
    && b.life < |ls| && b.at <= ls[b.life].ended && ls[b.life].trail[b.at].evicting.None?
    && ls[b.life].trail[b.at].disk.steps == b.after.steps
    && (m.session, m.seqNo) in Present(ls).steps && Present(ls).steps[(m.session, m.seqNo)] == m
  }

  lemma {:induction false} LaterLives(ls: seq<Life>, l: nat, sid: SessionId)
    requires Lives(ls) && l < |ls| && NothingForgotten(ls, sid)
    ensures Lives(ls[l..]) && NothingForgotten(ls[l..], sid) && Present(ls[l..]) == Present(ls)
    decreases l
  {
    if l == 0 {
      assert ls[0..] == ls;
    } else {
      RestOfLives(ls, sid);
      LaterLives(ls[1..], l - 1, sid);
      assert ls[1..][l - 1..] == ls[l..];
    }
  }

  lemma {:induction false} BegunStepIsFine(ls: seq<Life>, b: Beginning, fs0: Tree, m: Manifest)
    requires Wf(fs0) && Lives(ls) && NothingForgotten(ls, m.session) && WasBegun(ls, b, fs0, m)
    ensures m.Sound() && Captured(fs0, m) && StepBlobsVerify(Present(ls).blobs, m)
    ensures m.root in fs0 && fs0[m.root] == Dir
    ensures SameStep(b.after.steps[(m.session, m.seqNo)], m)
  {
    var k: Key := (m.session, m.seqNo);
    BegunStepIsCaptured(fs0, m.session, m.root, b.rootGiven, b.changes, b.cap, b.maxFileBytes, b.before, b.busyBefore,
                        m.seqNo, b.evicted, b.after, b.busyAfter);
    LaterLives(ls, b.life, m.session);
    StepIsTheSame(ls[b.life..], b.at, k);
    SameStepRecordsTheSame(fs0, fs0, Present(ls).blobs, b.after.steps[k], m);
    PresentIsRecoverable(ls);
    EveryStepKeepsItsSnapshot(Present(ls), k);
  }

  /** The `k`-th step was begun on the tree that the one before it left, and led to the next one: each of its
      paths is as it was or as its own change leaves it; nothing else happened. */
  ghost predicate Went(
      ls: seq<Life>, bs: seq<Beginning>, trees: seq<Tree>, sid: SessionId, ms: seq<Manifest>, k: nat)
    requires Lives(ls) && |bs| == |ms| && |trees| == |ms| + 1 && k < |ms|
  {
    && ms[k].session == sid && Wf(trees[k + 1]) && WasBegun(ls, bs[k], trees[k + 1], ms[k])
    && (forall i :: 0 <= i < |ms[k].entries| ==> ParentsOk(trees[k], ms[k].Abs(i)))
    && AsWasOrChanged(trees[k + 1], ms[k].root, bs[k].rootGiven, bs[k].changes, ms[k], trees[k])
    && OnlyTheStep(trees[k + 1], trees[k], ms[k])
  }

  /** The steps of a session, newest first, and the trees it went through. */
  ghost predicate WentThrough(ls: seq<Life>, bs: seq<Beginning>, trees: seq<Tree>, sid: SessionId, ms: seq<Manifest>)
    requires Lives(ls)
  {
    && |bs| == |ms| && |trees| == |ms| + 1
    && forall k :: 0 <= k < |ms| ==> Went(ls, bs, trees, sid, ms, k)
  }

  lemma {:induction false} WentMeans(
      ls: seq<Life>, bs: seq<Beginning>, trees: seq<Tree>, sid: SessionId, ms: seq<Manifest>, k: nat)
    requires Lives(ls) && NothingForgotten(ls, sid) && WentThrough(ls, bs, trees, sid, ms) && k < |ms|
    ensures ms[k].Sound() && LedTo(trees[k + 1], ms[k], trees[k]) && StepBlobsVerify(Present(ls).blobs, ms[k])
    ensures ms[k].root in trees[k + 1] && trees[k + 1][ms[k].root] == Dir
  {
    assert Went(ls, bs, trees, sid, ms, k);
    var b, m := bs[k], ms[k];
    BegunStepIsFine(ls, b, trees[k + 1], m);
    BegunStepExpectsItsChanges(trees[k + 1], m.session, m.root, b.rootGiven, b.changes, b.cap, b.maxFileBytes, b.before,
                               b.busyBefore, m.seqNo, b.evicted, b.after, b.busyAfter, m, trees[k]);
  }

  /** A granted folder that no step lists stays where it was. */
  lemma {:induction false} RootStays(trees: seq<Tree>, ms: seq<Manifest>, k: nat, root: Path)
    requires |trees| == |ms| + 1 && k <= |ms| && root in trees[k] && trees[k][root] == Dir && root !in Listed(ms)
    requires forall j :: 0 <= j < |ms| ==> Captured(trees[j + 1], ms[j]) && OnlyTheStep(trees[j + 1], trees[j], ms[j])
    ensures root in trees[0] && trees[0][root] == Dir
    decreases k
  {
    if k > 0 {
      PathsAreListed(ms, k - 1);
      assert root !in Created(ms[k - 1]);
      assert root in trees[k - 1] && trees[k - 1][root] == trees[k][root];
      RootStays(trees, ms, k - 1, root);
    }
  }

  lemma {:induction false} SessionIsInPlace(trees: seq<Tree>, ms: seq<Manifest>, k: nat)
    requires Layered(trees, ms) && k < |ms| && Restorable(trees[0], Listed(ms)) && ms[k].root !in Listed(ms)
    requires ms[k].root in trees[k + 1] && trees[k + 1][ms[k].root] == Dir
    ensures InPlace(trees[0], ms[k])
  {
    forall j | 0 <= j < |ms| ensures Captured(trees[j + 1], ms[j]) && OnlyTheStep(trees[j + 1], trees[j], ms[j]) {
      assert LedTo(trees[j + 1], ms[j], trees[j]);
    }
    RootStays(trees, ms, k + 1, ms[k].root);
    PathsAreListed(ms, k);
    forall i | 0 <= i < |ms[k].entries| ensures RelParentsOk(trees[0], ms[k].root, ms[k].entries[i].path) {
      assert ms[k].Abs(i) in ms[k].Paths();
      ParentsBelowRoot(trees[0], ms[k].root, ms[k].entries[i].path);
    }
  }

  /** What an undo checks holds of a session, if nothing but its steps happened. */
  lemma {:induction false} SessionPasses(trees: seq<Tree>, seen: BlobStore, busy: set<Path>, ms: seq<Manifest>)
    requires Layered(trees, ms) && SoundSteps(ms) && PrefixFree(Listed(ms)) && Restorable(trees[0], Listed(ms))
    requires Listed(ms) !! busy && forall k :: 0 <= k < |ms| ==> StepBlobsVerify(seen, ms[k])
    requires forall k :: 0 <= k < |ms| ==>
               ms[k].root !in Listed(ms) && ms[k].root in trees[k + 1] && trees[k + 1][ms[k].root] == Dir
    ensures Passes(trees[0], seen, busy, ms)
  {
    SessionGivesTheTreeBack(trees, seen, ms);
    NoBusyPath(ms, busy);
    forall k | 0 <= k < |ms| ensures InPlace(trees[0], ms[k]) {
      SessionIsInPlace(trees, ms, k);
    }
  }

  /** From the begin of its oldest step to the undo of a session, whatever the store did in between, with crashes
      and reopenings, as long as the steps are kept: with uncorrupted blobs the undo passes every check, and if
      only the steps changed the folder, each path as one of their changes leaves it or not changed at all, gives
      back the tree that the oldest began on. */
  lemma {:induction false} SessionIsUndone(
      ls: seq<Life>, bs: seq<Beginning>, trees: seq<Tree>, sid: SessionId, ms: seq<Manifest>, busy: set<Path>)
    requires Lives(ls) && NothingForgotten(ls, sid) && WentThrough(ls, bs, trees, sid, ms)
    requires PrefixFree(Listed(ms)) && Restorable(trees[0], Listed(ms)) && Listed(ms) !! busy
    requires forall k :: 0 <= k < |ms| ==> ms[k].root !in Listed(ms)
    ensures var seen := Present(ls).blobs;
            Passes(trees[0], seen, busy, ms) && CheckedUndo(trees[0], seen, Actions(ms)) == Ok(trees[|ms|])
  {
    var seen := Present(ls).blobs;
    forall k | 0 <= k < |ms|
      ensures ms[k].Sound() && LedTo(trees[k + 1], ms[k], trees[k]) && StepBlobsVerify(seen, ms[k])
      ensures ms[k].root in trees[k + 1] && trees[k + 1][ms[k].root] == Dir
    {
      WentMeans(ls, bs, trees, sid, ms, k);
    }
    SessionGivesTheTreeBack(trees, seen, ms);
    SessionPasses(trees, seen, busy, ms);
  }
}
