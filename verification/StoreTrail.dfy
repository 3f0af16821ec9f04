/** Every state the store's disk has been in, and what it says about steps and numbers. */
module StoreTrail {
  import opened Wrappers
  import opened Steps
  import opened StoreState
  import opened StoreInvariants

  /** What the disk held after a write, and the last number each session had been given by then. `evicting` is
      the step whose manifest has just been removed, while its session's record does not say so yet. */
  datatype Moment = Moment(disk: Disk, last: map<SessionId, nat>, evicting: Option<Key>)

  function LastIn(last: map<SessionId, nat>, sid: SessionId): (n: nat) {
    if sid in last then last[sid] else 0
  }

  function LastsOf(metas: MetaMap): (last: map<SessionId, nat>) {
    map sid | sid in metas :: metas[sid].lastSeq
  }

  // ----- What a crash at a moment forgets --------------------------------------------------------------

  /** The step being evicted bore the session's last number, and the record on disk had not caught up. */
  predicate Forgotten(m: Moment, sid: SessionId) {
    && m.evicting.Some? && m.evicting.value.0 == sid && m.evicting.value.1 == LastIn(m.last, sid)
    && MetaOf(m.disk.metas, sid).lastSeq < m.evicting.value.1
  }

  /** The eviction of one of the session's steps is under way. */
  predicate CutShort(m: Moment, sid: SessionId) {
    m.evicting.Some? && m.evicting.value.0 == sid
  }

  /** It was the last step, and as far as the disk shows no number above the pruned ones was ever given out. */
  predicate Emptied(m: Moment, sid: SessionId) {
    Forgotten(m, sid) && MetaOf(m.disk.metas, sid).lastSeq == MetaOf(m.disk.metas, sid).prunedThrough
  }

  ghost predicate RememberedParts(m: Moment) {
    && (forall sid :: CutShort(m, sid) ==> (Whole(m.disk, sid) <==> Emptied(m, sid)))
    && forall metas: MetaMap, floor: map<SessionId, nat>, sid: SessionId {:trigger Fits(m.disk.steps, m.disk.metas, metas, floor), MetaOf(metas, sid)} ::
      Fits(m.disk.steps, m.disk.metas, metas, floor) ==>
        && MetaOf(metas, sid).lastSeq <= LastIn(m.last, sid)
        && (MetaOf(metas, sid).lastSeq < LastIn(m.last, sid) <==> Forgotten(m, sid))
  }

  ghost predicate InsideMoment(m: Moment) {
    true
  }

  /** Whatever memory the disk can be the disk of, it knows every number given out, except a forgotten one; and
      amid an eviction a step is missing above the pruned ones, unless nothing is left to show it. */
  ghost predicate Remembered(m: Moment) {
    forall x: Moment {:trigger InsideMoment(x)} :: x == m ==> RememberedParts(x)
  }

  ghost predicate Safe(m: Moment) {
    Recoverable(m.disk) && Remembered(m)
  }

  // ----- From one moment to the next -------------------------------------------------------------------

  /** Whether a session keeps exactly the steps above the pruned ones changes only by an eviction: it does once
      the eviction is done, and until then only if it forgets the number. */
  ghost predicate WholeFollows(a: Moment, b: Moment) {
    && (forall sid :: !CutShort(b, sid) ==> (Whole(b.disk, sid) <==> CutShort(a, sid) || Whole(a.disk, sid)))
    && (forall sid :: CutShort(b, sid) && Whole(a.disk, sid) ==> (Whole(b.disk, sid) <==> Forgotten(b, sid)))
  }

  /** A step that stays is the same step, perhaps in a later status; a step that is new has a new number; at
      most one session is used, and that one last. */
  ghost predicate FollowsParts(a: Moment, b: Moment) {
    && WholeFollows(a, b)
    && (forall k :: k in a.disk.steps && k in b.disk.steps ==> SameStep(a.disk.steps[k], b.disk.steps[k]))
    && (forall k :: k in a.disk.steps ==> k.1 <= LastIn(a.last, k.0))
    && (forall k :: k in b.disk.steps && k !in a.disk.steps ==> LastIn(a.last, k.0) < k.1)
    && (forall sid :: LastIn(a.last, sid) <= LastIn(b.last, sid))
    && UsesFollow(a.disk.metas, b.disk.metas)
  }

  ghost predicate Follows(a: Moment, b: Moment) {
    forall x: Moment {:trigger InsideMoment(x)} :: x == a ==> FollowsParts(x, b)
  }

  ghost predicate StoryParts(trail: seq<Moment>) {
    && (forall i :: 0 <= i < |trail| ==> Safe(trail[i]))
    && (forall i :: 0 < i < |trail| ==> Follows(trail[i - 1], trail[i]))
  }

  ghost predicate InsideStory(trail: seq<Moment>) {
    true
  }

  /** The disk of a store from its opening on. */
  ghost predicate Story(trail: seq<Moment>) {
    trail != [] && forall t: seq<Moment> {:trigger InsideStory(t)} :: t == trail ==> StoryParts(t)
  }

  ghost predicate Now(trail: seq<Moment>, disk: Disk, last: map<SessionId, nat>) {
    trail != [] && trail[|trail| - 1] == Moment(disk, last, None)
  }

  lemma OneMoreMoment(trail: seq<Moment>, m: Moment)
    requires Story(trail) && Safe(m) && Follows(trail[|trail| - 1], m)
    ensures Story(trail + [m])
  {
    var more := trail + [m];
    assert InsideStory(trail);
    forall i | 0 <= i < |more| ensures Safe(more[i]) {
      if i < |trail| {
        assert more[i] == trail[i];
      }
    }
    forall i | 0 < i < |more| ensures Follows(more[i - 1], more[i]) {
      if i < |trail| {
        assert more[i - 1] == trail[i - 1] && more[i] == trail[i];
      }
    }
    assert StoryParts(more);
  }

  lemma StoryStarts(m: Moment)
    requires Safe(m)
    ensures Story([m])
  {
    assert StoryParts([m]);
  }

  lemma FollowsIf(a: Moment, b: Moment)
    requires FollowsParts(a, b)
    ensures Follows(a, b)
  {
  }

  lemma RememberedIf(m: Moment)
    requires RememberedParts(m)
    ensures Remembered(m)
  {
  }

  // ----- Which sessions keep every step above the pruned ones ------------------------------------------

  lemma WholeSameKeys(d: Disk, d1: Disk, sid: SessionId)
    requires d1.metas == d.metas && d1.steps.Keys == d.steps.Keys
    ensures Whole(d1, sid) <==> Whole(d, sid)
  {
    assert forall k :: k in d1.steps <==> k in d.steps;
    if meta :| IsRecovered(d, sid, meta) && Exact(d.steps, meta, sid) {
      assert IsRecovered(d1, sid, meta) && Exact(d1.steps, meta, sid);
    }
    if meta :| IsRecovered(d1, sid, meta) && Exact(d1.steps, meta, sid) {
      assert IsRecovered(d, sid, meta) && Exact(d.steps, meta, sid);
    }
  }

  lemma WholeSameNumbers(
      d: Disk, metas: MetaMap, floor: map<SessionId, nat>, d1: Disk, metas1: MetaMap, floor1: map<SessionId, nat>,
      sid: SessionId)
    requires Fits(d.steps, d.metas, metas, floor) && Fits(d1.steps, d1.metas, metas1, floor1) && d1.steps == d.steps
    requires MetaOf(metas1, sid).lastSeq == MetaOf(metas, sid).lastSeq
    requires MetaOf(metas1, sid).prunedThrough == MetaOf(metas, sid).prunedThrough
    ensures Whole(d1, sid) <==> Whole(d, sid)
  {
    WholeIs(d, metas, floor, sid);
    WholeIs(d1, metas1, floor1, sid);
  }

  lemma WholeWithNext(d: Disk, metas: MetaMap, floor: map<SessionId, nat>, m: Manifest, sid: SessionId)
    requires Fits(d.steps, d.metas, metas, floor) && m.seqNo == NextMeta(metas, m.session).lastSeq
    ensures Whole(d.(steps := d.steps[(m.session, m.seqNo) := m]), sid) <==> Whole(d, sid)
  {
    FitsWithNext(d.steps, d.metas, metas, floor, m.session, m);
    WholeIs(d, metas, floor, sid);
    WholeIs(d.(steps := d.steps[(m.session, m.seqNo) := m]), metas[m.session := NextMeta(metas, m.session)],
            floor[m.session := FloorOf(floor, m.session)], sid);
  }

  /** After a crash between removing an evicted manifest and writing the session's record, a step is missing
      above the pruned ones, unless the removed step was the last and nothing on disk shows that it was. If
      none was missing before, that is when the last number is forgotten. */
  lemma WholeAfterCrash(
      d: Disk, metas: MetaMap, floor: map<SessionId, nat>, k: Key, sid: SessionId)
    requires Fits(d.steps, d.metas, metas, floor) && Oldest(d.steps, k)
    ensures var onDisk, last := MetaOf(d.metas, sid), MetaOf(metas, sid).lastSeq;
            var removed := d.(steps := d.steps - {k});
            if sid != k.0 then Whole(removed, sid) <==> Whole(d, sid) else
              && (Whole(removed, sid) <==> k.1 == last && onDisk.lastSeq < k.1 && onDisk.lastSeq == onDisk.prunedThrough)
              && (Whole(d, sid) ==> (Whole(removed, sid) <==> k.1 == last && onDisk.lastSeq < k.1))
  {
    var removed := d.(steps := d.steps - {k});
    OldestIsFirst(d.steps, metas, floor, k);
    FitsWithoutOldest(d.steps, d.metas, metas, floor, k);
    var metas1, floor1 :| Fits(removed.steps, d.metas, metas1, floor1);
    WholeIs(d, metas, floor, sid);
    WholeIs(removed, metas1, floor1, sid);
    LastNumberAfterCrash(d.steps, d.metas, metas, floor, k, metas1, floor1, sid);
    if sid == k.0 {
      FloorAfterCrash(d.steps, d.metas, metas, floor, k, metas1, floor1);
    } else {
      SameForOthers(d, k, sid);
    }
  }

  lemma SameForOthers(d: Disk, k: Key, sid: SessionId)
    requires sid != k.0
    ensures Whole(d.(steps := d.steps - {k}), sid) <==> Whole(d, sid)
  {
    var removed := d.(steps := d.steps - {k});
    assert forall j: Key :: j.0 == sid ==> (j in removed.steps <==> j in d.steps);
    if meta :| IsRecovered(d, sid, meta) && Exact(d.steps, meta, sid) {
      assert IsRecovered(removed, sid, meta) && Exact(removed.steps, meta, sid);
    }
    if meta :| IsRecovered(removed, sid, meta) && Exact(removed.steps, meta, sid) {
      assert IsRecovered(d, sid, meta) && Exact(d.steps, meta, sid);
    }
  }

  lemma FloorAfterCrash(
      steps: StepMap, onDisk: MetaMap, metas: MetaMap, floor: map<SessionId, nat>, k: Key,
      metas1: MetaMap, floor1: map<SessionId, nat>)
    requires Fits(steps, onDisk, metas, floor) && Oldest(steps, k) && Fits(steps - {k}, onDisk, metas1, floor1)
    ensures var last, onDisk := MetaOf(metas, k.0).lastSeq, MetaOf(onDisk, k.0);
            k.0 in metas1 ==>
              floor1[k.0] == if k.1 == last && onDisk.lastSeq < k.1 then onDisk.lastSeq else k.1
    ensures k.0 !in metas1 ==> k.1 == MetaOf(metas, k.0).lastSeq && MetaOf(onDisk, k.0) == NEW_SESSION
  {
    OldestIsFirst(steps, metas, floor, k);
    LastNumberAfterCrash(steps, onDisk, metas, floor, k, metas1, floor1, k.0);
    var sid, last := k.0, MetaOf(metas, k.0).lastSeq;
    if k.1 < last {
      assert (sid, k.1 + 1) in steps - {k};
    }
    assert k !in steps - {k};
    if sid in metas1 {
      assert MetaAgrees(metas1[sid], floor1[sid], MetaOf(onDisk, sid));
      if floor1[sid] < metas1[sid].lastSeq {
        assert (sid, metas1[sid].lastSeq) in steps - {k} && (sid, floor1[sid] + 1) in steps - {k};
      }
    }
  }

  // ----- Moments of a store in order -------------------------------------------------------------------

  /** Which last numbers a disk shows does not depend on the memory one takes it to be the disk of. */
  lemma LastIsDetermined(
      steps: StepMap, onDisk: MetaMap, metas: MetaMap, floor: map<SessionId, nat>,
      metas1: MetaMap, floor1: map<SessionId, nat>, sid: SessionId)
    requires Fits(steps, onDisk, metas, floor) && Fits(steps, onDisk, metas1, floor1)
    ensures MetaOf(metas1, sid).lastSeq <= MetaOf(metas, sid).lastSeq
  {
    if sid in metas1 {
      assert MetaAgrees(metas1[sid], floor1[sid], MetaOf(onDisk, sid));
      var n := metas1[sid].lastSeq;
      if sid in metas {
        assert MetaAgrees(metas[sid], floor[sid], MetaOf(onDisk, sid));
      }
      if floor1[sid] < n {
        assert (sid, n) in steps;
      }
    }
  }

  lemma LastsAreIn(metas: MetaMap, sid: SessionId)
    ensures LastIn(LastsOf(metas), sid) == MetaOf(metas, sid).lastSeq
  {
  }

  lemma FitsIsRemembered(disk: Disk, metas: MetaMap, floor: map<SessionId, nat>, last: map<SessionId, nat>)
    requires Fits(disk.steps, disk.metas, metas, floor)
    requires forall sid :: LastIn(last, sid) == MetaOf(metas, sid).lastSeq
    ensures Remembered(Moment(disk, last, None))
  {
    var m := Moment(disk, last, None);
    forall metas1, floor1, sid | Fits(disk.steps, disk.metas, metas1, floor1)
      ensures MetaOf(metas1, sid).lastSeq == LastIn(last, sid)
    {
      LastIsDetermined(disk.steps, disk.metas, metas, floor, metas1, floor1, sid);
      LastIsDetermined(disk.steps, disk.metas, metas1, floor1, metas, floor, sid);
    }
    RememberedIf(m);
  }

  /** Between two operations nothing is forgotten. */
  lemma SaneIsSafe(
      steps: StepMap, metas: MetaMap, blobs: map<Hex, nat>, tick: nat, floor: map<SessionId, nat>, disk: Disk)
    requires Sane(steps, metas, blobs, tick, floor, disk)
    ensures Safe(Moment(disk, LastsOf(metas), None))
  {
    SaneIsRecoverable(steps, metas, blobs, tick, floor, disk);
    LookInside(steps, metas, blobs, tick, floor, disk);
    forall sid ensures LastIn(LastsOf(metas), sid) == MetaOf(metas, sid).lastSeq {
      LastsAreIn(metas, sid);
    }
    FitsIsRemembered(disk, metas, floor, LastsOf(metas));
  }

  lemma StepsHaveNumbers(
      steps: StepMap, metas: MetaMap, blobs: map<Hex, nat>, tick: nat, floor: map<SessionId, nat>, disk: Disk)
    requires Sane(steps, metas, blobs, tick, floor, disk)
    ensures steps == disk.steps && forall k :: k in steps ==> k.1 <= LastIn(LastsOf(metas), k.0)
  {
    LookInside(steps, metas, blobs, tick, floor, disk);
    forall k | k in steps ensures k.1 <= LastIn(LastsOf(metas), k.0) {
      LastsAreIn(metas, k.0);
    }
  }

  lemma QuietIsWhole(
      steps: StepMap, metas: MetaMap, blobs: map<Hex, nat>, tick: nat, floor: map<SessionId, nat>, disk: Disk,
      metas1: MetaMap, blobs1: map<Hex, nat>, tick1: nat, floor1: map<SessionId, nat>, disk1: Disk)
    requires Sane(steps, metas, blobs, tick, floor, disk) && Sane(steps, metas1, blobs1, tick1, floor1, disk1)
    requires forall sid :: MetaOf(metas1, sid).lastSeq == MetaOf(metas, sid).lastSeq
    requires forall sid :: MetaOf(metas1, sid).prunedThrough == MetaOf(metas, sid).prunedThrough
    ensures WholeFollows(Moment(disk, LastsOf(metas), None), Moment(disk1, LastsOf(metas1), None))
  {
    LookInside(steps, metas, blobs, tick, floor, disk);
    LookInside(steps, metas1, blobs1, tick1, floor1, disk1);
    forall sid ensures Whole(disk1, sid) <==> Whole(disk, sid) {
      WholeSameNumbers(disk, metas, floor, disk1, metas1, floor1, sid);
    }
  }

  /** A write that leaves the steps and the numbers alone. */
  lemma QuietWrite(
      steps: StepMap, metas: MetaMap, blobs: map<Hex, nat>, tick: nat, floor: map<SessionId, nat>, disk: Disk,
      metas1: MetaMap, blobs1: map<Hex, nat>, tick1: nat, floor1: map<SessionId, nat>, disk1: Disk)
    requires Sane(steps, metas, blobs, tick, floor, disk) && Sane(steps, metas1, blobs1, tick1, floor1, disk1)
    requires disk1.steps == disk.steps && forall sid :: MetaOf(metas1, sid).lastSeq == MetaOf(metas, sid).lastSeq
    requires forall sid :: MetaOf(metas1, sid).prunedThrough == MetaOf(metas, sid).prunedThrough
    requires UsesFollow(disk.metas, disk1.metas)
    ensures Follows(Moment(disk, LastsOf(metas), None), Moment(disk1, LastsOf(metas1), None))
    ensures Safe(Moment(disk1, LastsOf(metas1), None))
  {
    SaneIsSafe(steps, metas1, blobs1, tick1, floor1, disk1);
    StepsHaveNumbers(steps, metas, blobs, tick, floor, disk);
    forall sid ensures LastIn(LastsOf(metas1), sid) == LastIn(LastsOf(metas), sid) {
      LastsAreIn(metas, sid);
      LastsAreIn(metas1, sid);
    }
    QuietIsWhole(steps, metas, blobs, tick, floor, disk, metas1, blobs1, tick1, floor1, disk1);
    FollowsIf(Moment(disk, LastsOf(metas), None), Moment(disk1, LastsOf(metas1), None));
  }

  /** A step is rewritten in a later status. */
  lemma RestatusWrite(
      steps: StepMap, metas: MetaMap, blobs: map<Hex, nat>, tick: nat, floor: map<SessionId, nat>, disk: Disk,
      k: Key, m: Manifest)
    requires Sane(steps, metas, blobs, tick, floor, disk) && k in steps && SameStep(steps[k], m)
    ensures Follows(Moment(disk, LastsOf(metas), None), Moment(disk.(steps := disk.steps[k := m]), LastsOf(metas), None))
  {
    StepsHaveNumbers(steps, metas, blobs, tick, floor, disk);
    forall sid ensures Whole(disk.(steps := disk.steps[k := m]), sid) <==> Whole(disk, sid) {
      WholeSameKeys(disk, disk.(steps := disk.steps[k := m]), sid);
    }
    FollowsIf(Moment(disk, LastsOf(metas), None), Moment(disk.(steps := disk.steps[k := m]), LastsOf(metas), None));
  }

  lemma RecordIsWhole(
      steps: StepMap, metas: MetaMap, blobs: map<Hex, nat>, tick: nat, floor: map<SessionId, nat>, disk: Disk,
      m: Manifest)
    requires Sane(steps, metas, blobs, tick, floor, disk) && m.seqNo == NextMeta(metas, m.session).lastSeq
    ensures var metas1 := metas[m.session := NextMeta(metas, m.session)];
            WholeFollows(Moment(disk, LastsOf(metas), None),
                         Moment(disk.(steps := disk.steps[(m.session, m.seqNo) := m]), LastsOf(metas1), None))
  {
    LookInside(steps, metas, blobs, tick, floor, disk);
    forall sid ensures Whole(disk.(steps := disk.steps[(m.session, m.seqNo) := m]), sid) <==> Whole(disk, sid) {
      WholeWithNext(disk, metas, floor, m, sid);
    }
  }

  /** A step is recorded under the next number. */
  lemma RecordWrite(
      steps: StepMap, metas: MetaMap, blobs: map<Hex, nat>, tick: nat, floor: map<SessionId, nat>, disk: Disk,
      m: Manifest)
    requires Sane(steps, metas, blobs, tick, floor, disk) && m.seqNo == NextMeta(metas, m.session).lastSeq
    ensures var metas1 := metas[m.session := NextMeta(metas, m.session)];
            Follows(Moment(disk, LastsOf(metas), None),
                    Moment(disk.(steps := disk.steps[(m.session, m.seqNo) := m]), LastsOf(metas1), None))
  {
    var k, metas1 := (m.session, m.seqNo), metas[m.session := NextMeta(metas, m.session)];
    StepsHaveNumbers(steps, metas, blobs, tick, floor, disk);
    forall sid ensures LastIn(LastsOf(metas), sid) <= LastIn(LastsOf(metas1), sid) {
      LastsAreIn(metas, sid);
      LastsAreIn(metas1, sid);
    }
    LastsAreIn(metas, m.session);
    RecordIsWhole(steps, metas, blobs, tick, floor, disk, m);
    FollowsIf(Moment(disk, LastsOf(metas), None), Moment(disk.(steps := disk.steps[k := m]), LastsOf(metas1), None));
  }

  /** After a crash between removing an evicted manifest and writing the session's record, the last number
      is forgotten exactly when the removed step bore it and the record on disk had not caught up. */
  lemma LastNumberAfterCrash(
      steps: StepMap, onDisk: MetaMap, metas: MetaMap, floor: map<SessionId, nat>, k: Key,
      metas1: MetaMap, floor1: map<SessionId, nat>, sid: SessionId)
    requires Fits(steps, onDisk, metas, floor) && Oldest(steps, k) && Fits(steps - {k}, onDisk, metas1, floor1)
    ensures MetaOf(metas1, sid).lastSeq <= MetaOf(metas, sid).lastSeq
    ensures MetaOf(metas1, sid).lastSeq < MetaOf(metas, sid).lastSeq <==>
            sid == k.0 && k.1 == MetaOf(metas, sid).lastSeq && MetaOf(onDisk, sid).lastSeq < k.1
  {
    OldestIsFirst(steps, metas, floor, k);
    if sid in metas {
      assert MetaAgrees(metas[sid], floor[sid], MetaOf(onDisk, sid));
    }
    if sid in metas1 {
      assert MetaAgrees(metas1[sid], floor1[sid], MetaOf(onDisk, sid));
      if floor1[sid] < metas1[sid].lastSeq {
        assert (sid, metas1[sid].lastSeq) in steps - {k};
      }
    }
    if sid in metas && floor[sid] < metas[sid].lastSeq && (sid, metas[sid].lastSeq) != k {
      assert (sid, metas[sid].lastSeq) in steps - {k};
    }
  }

  /** The two writes of an eviction that change steps and records. */
  lemma EvictionWrites(
      steps: StepMap, metas: MetaMap, blobs: map<Hex, nat>, tick: nat, floor: map<SessionId, nat>, disk: Disk, k: Key)
    requires Sane(steps, metas, blobs, tick, floor, disk) && Oldest(steps, k)
    ensures var now := Moment(disk, LastsOf(metas), None);
            var removed := Moment(disk.(steps := disk.steps - {k}), LastsOf(metas), Some(k));
            var metas1 := metas[k.0 := EvictedMeta(metas, k)];
            var noted := Moment(Disk(disk.steps - {k}, disk.metas[k.0 := EvictedMeta(metas, k)], disk.blobs), LastsOf(metas1), None);
            Follows(now, removed) && Safe(removed) && Follows(removed, noted)
  {
    var removed := Moment(disk.(steps := disk.steps - {k}), LastsOf(metas), Some(k));
    var metas1 := metas[k.0 := EvictedMeta(metas, k)];
    var noted := Moment(Disk(disk.steps - {k}, disk.metas[k.0 := EvictedMeta(metas, k)], disk.blobs), LastsOf(metas1), None);
    StepsHaveNumbers(steps, metas, blobs, tick, floor, disk);
    EvictionKeeps(steps, metas, blobs, tick, floor, disk, k);
    RemovedIsRemembered(steps, metas, blobs, tick, floor, disk, k);
    forall sid ensures LastIn(LastsOf(metas1), sid) == LastIn(LastsOf(metas), sid) {
      LastsAreIn(metas, sid);
      LastsAreIn(metas1, sid);
    }
    EvictionIsWhole(steps, metas, blobs, tick, floor, disk, k);
    UsesOnDisk(steps, metas, blobs, tick, floor, disk);
    assert LastUse(disk.metas, k.0) == LastUse(metas, k.0);
    FollowsIf(Moment(disk, LastsOf(metas), None), removed);
    FollowsIf(removed, noted);
  }

  lemma EvictionIsWhole(
      steps: StepMap, metas: MetaMap, blobs: map<Hex, nat>, tick: nat, floor: map<SessionId, nat>, disk: Disk, k: Key)
    requires Sane(steps, metas, blobs, tick, floor, disk) && Oldest(steps, k)
    ensures var now := Moment(disk, LastsOf(metas), None);
            var removed := Moment(disk.(steps := disk.steps - {k}), LastsOf(metas), Some(k));
            var metas1 := metas[k.0 := EvictedMeta(metas, k)];
            var noted := Moment(Disk(disk.steps - {k}, disk.metas[k.0 := EvictedMeta(metas, k)], disk.blobs), LastsOf(metas1), None);
            WholeFollows(now, removed) && WholeFollows(removed, noted)
  {
    LookInside(steps, metas, blobs, tick, floor, disk);
    var d1, meta := disk.(steps := disk.steps - {k}), EvictedMeta(metas, k);
    var d2 := Disk(disk.steps - {k}, disk.metas[k.0 := meta], disk.blobs);
    FitsEvicted(steps, disk.metas, metas, floor, k);
    NumberedWithoutOldest(steps, metas, floor, k);
    forall sid
      ensures sid != k.0 ==> (Whole(d1, sid) <==> Whole(disk, sid)) && (Whole(d2, sid) <==> Whole(d1, sid))
      ensures sid == k.0 ==> Whole(d2, sid)
      ensures sid == k.0 && Whole(disk, sid) ==>
                (Whole(d1, sid) <==> k.1 == LastIn(LastsOf(metas), sid) && MetaOf(disk.metas, sid).lastSeq < k.1)
    {
      LastsAreIn(metas, sid);
      WholeAfterCrash(disk, metas, floor, k, sid);
      WholeIs(disk, metas, floor, sid);
      WholeIs(d2, metas[k.0 := meta], floor[k.0 := k.1], sid);
    }
  }

  lemma RemovedIsRemembered(
      steps: StepMap, metas: MetaMap, blobs: map<Hex, nat>, tick: nat, floor: map<SessionId, nat>, disk: Disk, k: Key)
    requires Sane(steps, metas, blobs, tick, floor, disk) && Oldest(steps, k)
    ensures Remembered(Moment(disk.(steps := disk.steps - {k}), LastsOf(metas), Some(k)))
  {
    LookInside(steps, metas, blobs, tick, floor, disk);
    var m := Moment(disk.(steps := disk.steps - {k}), LastsOf(metas), Some(k));
    LastsAreIn(metas, k.0);
    WholeAfterCrash(disk, metas, floor, k, k.0);
    forall metas1, floor1, sid | Fits(m.disk.steps, m.disk.metas, metas1, floor1)
      ensures MetaOf(metas1, sid).lastSeq <= LastIn(m.last, sid)
      ensures MetaOf(metas1, sid).lastSeq < LastIn(m.last, sid) <==> Forgotten(m, sid)
    {
      LastsAreIn(metas, sid);
      LastNumberAfterCrash(steps, disk.metas, metas, floor, k, metas1, floor1, sid);
    }
    RememberedIf(m);
  }

  // ----- Loading ---------------------------------------------------------------------------------------

  /** The last numbers a disk shows. */
  ghost predicate Shows(d: Disk, last: map<SessionId, nat>) {
    forall e: Disk {:trigger InsideShown(e)} :: e == d ==> ShowsParts(e, last)
  }

  ghost predicate InsideShown(d: Disk) {
    true
  }

  ghost predicate ShowsParts(d: Disk, last: map<SessionId, nat>) {
    && last.Keys == Known(d)
    && exists metas, floor :: Fits(d.steps, d.metas, metas, floor) && forall sid :: LastIn(last, sid) == MetaOf(metas, sid).lastSeq
  }

  lemma WhatIsShown(d: Disk) returns (last: map<SessionId, nat>)
    requires Recoverable(d)
    ensures Shows(d, last)
  {
    var metas, floor := SomeMemoryFits(d);
    last := map sid | sid in Known(d) :: MetaOf(metas, sid).lastSeq;
    forall sid ensures LastIn(last, sid) == MetaOf(metas, sid).lastSeq {
      if sid in metas {
        assert MetaAgrees(metas[sid], floor[sid], MetaOf(d.metas, sid));
        assert floor[sid] < metas[sid].lastSeq ==> (sid, metas[sid].lastSeq) in d.steps;
      }
    }
    assert ShowsParts(d, last);
  }

  lemma ShownIsSafe(d: Disk, last: map<SessionId, nat>, d1: Disk)
    requires Shows(d, last) && Recoverable(d1) && d1.metas == d.metas && d1.steps.Keys == d.steps.Keys
    ensures Safe(Moment(d1, last, None))
  {
    assert InsideShown(d);
    var metas, floor :| Fits(d.steps, d.metas, metas, floor) && forall sid :: LastIn(last, sid) == MetaOf(metas, sid).lastSeq;
    assert Fits(d1.steps, d1.metas, metas, floor) by {
      assert forall k :: k in d1.steps <==> k in d.steps;
    }
    FitsIsRemembered(d1, metas, floor, last);
  }

  lemma ShownNumbers(d: Disk, last: map<SessionId, nat>, k: Key)
    requires Shows(d, last) && k in d.steps
    ensures k.1 <= LastIn(last, k.0)
  {
    assert InsideShown(d);
    var metas, floor :| Fits(d.steps, d.metas, metas, floor) && forall sid :: LastIn(last, sid) == MetaOf(metas, sid).lastSeq;
  }

  /** Reading a step rewrites it as interrupted. */
  lemma LoadingWrite(d: Disk, last: map<SessionId, nat>, d1: Disk, k: Key, m: Manifest)
    requires Shows(d, last) && Recoverable(d1.(steps := d1.steps[k := m]))
    requires d1.metas == d.metas && d1.steps.Keys == d.steps.Keys && k in d1.steps && SameStep(d1.steps[k], m)
    ensures Follows(Moment(d1, last, None), Moment(d1.(steps := d1.steps[k := m]), last, None))
    ensures Safe(Moment(d1.(steps := d1.steps[k := m]), last, None))
  {
    forall j | j in d1.steps ensures j.1 <= LastIn(last, j.0) {
      assert j in d.steps;
      ShownNumbers(d, last, j);
    }
    RewritingFollows(d1, last, k, m);
    ShownIsSafe(d, last, d1.(steps := d1.steps[k := m]));
  }

  lemma RewritingFollows(d1: Disk, last: map<SessionId, nat>, k: Key, m: Manifest)
    requires k in d1.steps && SameStep(d1.steps[k], m) && forall j :: j in d1.steps ==> j.1 <= LastIn(last, j.0)
    ensures Follows(Moment(d1, last, None), Moment(d1.(steps := d1.steps[k := m]), last, None))
  {
    forall sid ensures Whole(d1.(steps := d1.steps[k := m]), sid) <==> Whole(d1, sid) {
      WholeSameKeys(d1, d1.(steps := d1.steps[k := m]), sid);
    }
    FollowsIf(Moment(d1, last, None), Moment(d1.(steps := d1.steps[k := m]), last, None));
  }

  lemma LoadedShows(d: Disk, last: map<SessionId, nat>, sessions: MetaMap, floor1: map<SessionId, nat>)
    requires Shows(d, last) && Loaded(d, sessions, floor1)
    ensures LastsOf(sessions) == last
  {
    LookInsideLoaded(d, sessions, floor1);
    assert InsideShown(d);
    var metas, floor :| Fits(d.steps, d.metas, metas, floor) && forall sid :: LastIn(last, sid) == MetaOf(metas, sid).lastSeq;
    assert SameRecords(sessions, metas);
    forall sid | sid in sessions ensures LastsOf(sessions)[sid] == last[sid] {
      assert LastIn(last, sid) == MetaOf(metas, sid).lastSeq;
    }
  }

  // ----- Over a whole story ----------------------------------------------------------------------------

  lemma Next(trail: seq<Moment>, i: nat)
    requires Story(trail) && i + 1 < |trail|
    ensures FollowsParts(trail[i], trail[i + 1])
  {
    assert InsideStory(trail);
    assert Follows(trail[i + 1 - 1], trail[i + 1]);
    assert InsideMoment(trail[i]);
  }

  lemma {:induction false} GoneStaysGone(trail: seq<Moment>, i: nat, j: nat, k: Key)
    requires Story(trail) && i <= j < |trail| && k !in trail[i].disk.steps && k.1 <= LastIn(trail[i].last, k.0)
    ensures k !in trail[j].disk.steps
    decreases j - i
  {
    if i < j {
      Next(trail, i);
      GoneStaysGone(trail, i + 1, j, k);
    }
  }

  lemma SameStepChains(a: Manifest, b: Manifest, c: Manifest)
    requires SameStep(a, b) && SameStep(b, c)
    ensures SameStep(a, c)
  {
  }

  /** Whatever the store does meanwhile, a step that is on disk at two moments is the same step. */
  lemma {:induction false} KeptIsSame(trail: seq<Moment>, i: nat, j: nat, k: Key)
    requires Story(trail) && i <= j < |trail| && k in trail[i].disk.steps && k in trail[j].disk.steps
    ensures SameStep(trail[i].disk.steps[k], trail[j].disk.steps[k])
    decreases j - i
  {
    if i < j {
      Next(trail, i);
      if k !in trail[i + 1].disk.steps {
        GoneStaysGone(trail, i + 1, j, k);
      }
      KeptIsSame(trail, i + 1, j, k);
      SameStepChains(trail[i].disk.steps[k], trail[i + 1].disk.steps[k], trail[j].disk.steps[k]);
    }
  }

  /** In one life of a store a number is given out once: a step that is gone does not come back. */
  lemma NumbersAreNotReused(trail: seq<Moment>, i: nat, j: nat, l: nat, k: Key)
    requires Story(trail) && i <= j <= l < |trail|
    requires k in trail[i].disk.steps && k !in trail[j].disk.steps
    ensures k !in trail[l].disk.steps
  {
    if i < j {
      NumberKnown(trail, i, j, k);
      GoneStaysGone(trail, j, l, k);
    }
  }

  lemma {:induction false} NumberKnown(trail: seq<Moment>, i: nat, j: nat, k: Key)
    requires Story(trail) && i < j < |trail| && k in trail[i].disk.steps
    ensures k.1 <= LastIn(trail[j].last, k.0)
    decreases j
  {
    if i + 1 < j {
      NumberKnown(trail, i, j - 1, k);
      Next(trail, j - 1);
    } else {
      Next(trail, i);
    }
  }

  /** A store reopened after a crash at any moment knows the last number given out, unless the crash came
      between the two writes of an eviction and the evicted step bore that number, not yet on record. */
  lemma ReopeningForgetsExactly(
      trail: seq<Moment>, i: nat, sessions: MetaMap, floor1: map<SessionId, nat>, sid: SessionId)
    requires Story(trail) && i < |trail| && Loaded(trail[i].disk, sessions, floor1)
    ensures MetaOf(sessions, sid).lastSeq <= LastIn(trail[i].last, sid)
    ensures MetaOf(sessions, sid).lastSeq < LastIn(trail[i].last, sid) <==> Forgotten(trail[i], sid)
  {
    var m := trail[i];
    assert InsideStory(trail);
    assert Safe(m) && InsideMoment(m);
    var last := WhatIsShown(m.disk);
    LoadedShows(m.disk, last, sessions, floor1);
    LastsAreIn(sessions, sid);
    assert InsideShown(m.disk);
    var metas, floor :| Fits(m.disk.steps, m.disk.metas, metas, floor) && forall s :: LastIn(last, s) == MetaOf(metas, s).lastSeq;
    assert MetaOf(metas, sid).lastSeq == LastIn(last, sid);
  }

  /** An eviction of one of the session's steps was carried through before the `i`-th moment. */
  ghost predicate Evicted(trail: seq<Moment>, i: nat, sid: SessionId)
    requires i < |trail|
  {
    exists j: nat :: j < i && CutShort(trail[j], sid)
  }

  /** At every moment that is not amid an eviction of the session: it keeps exactly the steps above the pruned
      ones if it did when the store was opened, or if one of its steps has been evicted since. */
  lemma {:induction false} WholeAlong(trail: seq<Moment>, i: nat, sid: SessionId)
    requires Story(trail) && i < |trail| && trail[0].evicting.None? && !CutShort(trail[i], sid)
    ensures Whole(trail[i].disk, sid) <==> Whole(trail[0].disk, sid) || Evicted(trail, i, sid)
    decreases i
  {
    if i > 0 {
      Next(trail, i - 1);
      if CutShort(trail[i - 1], sid) {
        assert Evicted(trail, i, sid);
      } else {
        WholeAlong(trail, i - 1, sid);
        assert Evicted(trail, i, sid) <==> Evicted(trail, i - 1, sid);
      }
    }
  }

  /** Between two moments that are not amid an eviction of the session, so from one call to the next, no step
      above the pruned ones is lost. */
  lemma {:induction false} NoCallLosesAStep(trail: seq<Moment>, i: nat, j: nat, sid: SessionId)
    requires Story(trail) && i <= j < |trail| && !CutShort(trail[j], sid) && Whole(trail[i].disk, sid)
    ensures Whole(trail[j].disk, sid)
    decreases j
  {
    if i < j {
      Next(trail, j - 1);
      if !CutShort(trail[j - 1], sid) {
        NoCallLosesAStep(trail, i, j - 1, sid);
      }
    }
  }

  /** Whether a crash at this moment leaves the session with exactly the steps above the pruned ones. */
  ghost predicate WholeAt(trail: seq<Moment>, i: nat, sid: SessionId)
    requires i < |trail|
  {
    if CutShort(trail[i], sid) then Emptied(trail[i], sid) else Whole(trail[0].disk, sid) || Evicted(trail, i, sid)
  }

  lemma {:induction false} WholeAtExactly(trail: seq<Moment>, i: nat, sid: SessionId)
    requires Story(trail) && i < |trail| && trail[0].evicting.None?
    ensures Whole(trail[i].disk, sid) <==> WholeAt(trail, i, sid)
  {
    if CutShort(trail[i], sid) {
      assert InsideStory(trail);
      assert Safe(trail[i]) && InsideMoment(trail[i]);
    } else {
      WholeAlong(trail, i, sid);
    }
  }

  /** A store reopened after a crash at any moment keeps, of a session, exactly the numbers given out above those
      it calls pruned, unless the crash came between the two writes of an eviction of the session, or an earlier
      one did and none of its steps has been evicted since. */
  lemma {:induction false} ReopenedIsExactWhen(
      trail: seq<Moment>, i: nat, sessions: MetaMap, floor1: map<SessionId, nat>, sid: SessionId)
    requires Story(trail) && i < |trail| && trail[0].evicting.None? && Loaded(trail[i].disk, sessions, floor1)
    ensures Exact(trail[i].disk.steps, MetaOf(sessions, sid), sid) <==> WholeAt(trail, i, sid)
    ensures CutShort(trail[i], sid) && i > 0 && Whole(trail[i - 1].disk, sid) ==>
              (Exact(trail[i].disk.steps, MetaOf(sessions, sid), sid) <==> Forgotten(trail[i], sid))
  {
    assert InsideStory(trail);
    assert Safe(trail[i]);
    LoadedIsWhole(trail[i].disk, sessions, floor1, sid);
    WholeAtExactly(trail, i, sid);
    if i > 0 {
      Next(trail, i - 1);
    }
  }

  lemma LoadedIsWhole(d: Disk, sessions: MetaMap, floor1: map<SessionId, nat>, sid: SessionId)
    requires Recoverable(d) && Loaded(d, sessions, floor1)
    ensures Exact(d.steps, MetaOf(sessions, sid), sid) <==> Whole(d, sid)
  {
    LookInsideLoaded(d, sessions, floor1);
    var metas, floor := SomeMemoryFits(d);
    assert SameRecords(sessions, metas);
    WholeIs(d, metas, floor, sid);
    if sid !in sessions {
      NoRecord(d, metas, floor, sid);
    }
  }

  lemma NoRecord(d: Disk, metas: MetaMap, floor: map<SessionId, nat>, sid: SessionId)
    requires Fits(d.steps, d.metas, metas, floor) && sid !in Known(d)
    ensures MetaOf(metas, sid) == NEW_SESSION
  {
    RecordIsRecovered(d, metas, floor, sid);
    assert IsRecovered(d, sid, NEW_SESSION);
  }
}
