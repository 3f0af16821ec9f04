/** What each write of the checkpoint store keeps true, as values.

    `Sane` ties the maps in memory to the disk, `Recoverable` says that the next start can make a sane
    store of a disk, and each lemma about a write shows both, also for the disk between two writes of
    one call. `Fits` is the part about numbers: the kept steps of a session are those above some floor
    up to its last number, and `NoneMissing` says that the floor is what the session has been pruned
    through. `InFlight` ties the busy paths to the prepared steps. */
module StoreInvariants {
  import opened FileTree
  import opened Steps
  import opened Undo
  import opened StoreState

  lemma KeysMinusOneMore<K>(keys: set<K>, gone: set<K>, k: K)
    ensures keys - gone - {k} == keys - (gone + {k})
  {
  }

  lemma NeededStay<K>(keys: set<K>, needed: set<K>, gone: set<K>)
    requires gone == set k | k in keys && k !in needed
    ensures keys - gone == keys * needed
  {
  }

  lemma OneMoreGone(all: set<Hex>, gone: set<Hex>, h: Hex)
    requires gone <= all && h in all - gone
    ensures gone + {h} <= all && all - gone - {h} == all - (gone + {h})
    ensures |all - gone - {h}| < |all - gone|
  {
    assert |all - gone - {h}| == |all - gone| - 1;
  }

  /** Blobs no recorded step needs can go, one by one. */
  lemma DroppingBlobsKeeps(
      steps: StepMap, metas: MetaMap, blobs: map<Hex, nat>, tick: nat, floor: map<SessionId, nat>, disk: Disk,
      gone: set<Hex>)
    requires Sane(steps, metas, blobs, tick, floor, disk) && gone !! Referenced(steps)
    ensures Sane(steps, metas, blobs - gone, tick, floor, disk.(blobs := disk.blobs - gone))
    ensures Recoverable(disk.(blobs := disk.blobs - gone))
  {
    LookInside(steps, metas, blobs, tick, floor, disk);
    var d := disk.(blobs := disk.blobs - gone);
    assert SaneParts(steps, metas, blobs - gone, tick, floor, d);
    SaneIsRecoverable(steps, metas, blobs - gone, tick, floor, d);
  }

  /** The oldest kept step of a session has the first number above the floor. */
  lemma OldestIsFirst(steps: StepMap, metas: MetaMap, floor: map<SessionId, nat>, k: Key)
    requires Numbered(steps, metas, floor) && Oldest(steps, k)
    ensures k.0 in metas && k.1 == floor[k.0] + 1 && metas[k.0].prunedThrough < k.1
  {
    assert (k.0, floor[k.0] + 1) in steps;
  }

  /** The record of a session whose step `k` was just evicted. */
  function EvictedMeta(metas: MetaMap, k: Key): (meta: SessionMeta) {
    MetaOf(metas, k.0).(prunedThrough := k.1)
  }

  lemma NumberedWithoutOldest(steps: StepMap, metas: MetaMap, floor: map<SessionId, nat>, k: Key)
    requires Numbered(steps, metas, floor) && Oldest(steps, k)
    ensures Numbered(steps - {k}, metas[k.0 := EvictedMeta(metas, k)], floor[k.0 := k.1])
    ensures NoneMissing(metas, floor) ==> NoneMissing(metas[k.0 := EvictedMeta(metas, k)], floor[k.0 := k.1])
  {
    OldestIsFirst(steps, metas, floor, k);
    var rest, metas1, floor1 := steps - {k}, metas[k.0 := EvictedMeta(metas, k)], floor[k.0 := k.1];
    forall j: Key ensures j in rest <==> j.0 in metas1 && floor1[j.0] < j.1 <= metas1[j.0].lastSeq {
      assert j in steps <==> j.0 in metas && floor[j.0] < j.1 <= metas[j.0].lastSeq;
      assert j == k <==> j.0 == k.0 && j.1 == k.1;
    }
  }

  /** Without its oldest step, a session's numbers end at `last`, and start at most there. */
  lemma NumberedWithoutFirst(
      steps: StepMap, metas: MetaMap, floor: map<SessionId, nat>, k: Key, last: nat)
    requires Numbered(steps, metas, floor) && Oldest(steps, k)
    requires if k.1 < metas[k.0].lastSeq then last == metas[k.0].lastSeq
             else metas[k.0].prunedThrough <= last <= metas[k.0].lastSeq
    ensures Numbered(steps - {k}, metas[k.0 := metas[k.0].(lastSeq := last)],
                     floor[k.0 := if k.1 < last then k.1 else last])
  {
    OldestIsFirst(steps, metas, floor, k);
    var rest, metas1 := steps - {k}, metas[k.0 := metas[k.0].(lastSeq := last)];
    var floor1 := floor[k.0 := if k.1 < last then k.1 else last];
    forall j: Key ensures j in rest <==> j.0 in metas1 && floor1[j.0] < j.1 <= metas1[j.0].lastSeq {
      assert j in steps <==> j.0 in metas && floor[j.0] < j.1 <= metas[j.0].lastSeq;
      assert j == k <==> j.0 == k.0 && j.1 == k.1;
    }
  }

  /** A crash between removing the manifest and writing the record: memory would then be `metas`, with the
      last number taken from disk. */
  lemma FitsWithoutOldest(
      steps: StepMap, onDisk: MetaMap, metas: MetaMap, floor: map<SessionId, nat>, k: Key)
    requires Fits(steps, onDisk, metas, floor) && Oldest(steps, k)
    ensures exists metas1, floor1 :: Fits(steps - {k}, onDisk, metas1, floor1)
  {
    OldestIsFirst(steps, metas, floor, k);
    var meta := metas[k.0];
    assert MetaAgrees(meta, floor[k.0], MetaOf(onDisk, k.0));
    var last := if k.1 < meta.lastSeq then meta.lastSeq else MetaOf(onDisk, k.0).lastSeq;
    NumberedWithoutFirst(steps, metas, floor, k, last);
    var floor1 := floor[k.0 := if k.1 < last then k.1 else last];
    assert Fits(steps - {k}, onDisk, metas[k.0 := meta.(lastSeq := last)], floor1);
  }

  lemma FitsEvicted(
      steps: StepMap, onDisk: MetaMap, metas: MetaMap, floor: map<SessionId, nat>, k: Key)
    requires Fits(steps, onDisk, metas, floor) && Oldest(steps, k)
    ensures var meta := EvictedMeta(metas, k);
            Fits(steps - {k}, onDisk[k.0 := meta], metas[k.0 := meta], floor[k.0 := k.1])
  {
    OldestIsFirst(steps, metas, floor, k);
    NumberedWithoutOldest(steps, metas, floor, k);
  }

  lemma EvictionKeepsParts(
      steps: StepMap, metas: MetaMap, blobs: map<Hex, nat>, tick: nat, floor: map<SessionId, nat>, disk: Disk, k: Key)
    requires SaneParts(steps, metas, blobs, tick, floor, disk) && Oldest(steps, k)
    ensures RecoverableParts(disk.(steps := steps - {k}))
    ensures var d := Disk(steps - {k}, disk.metas[k.0 := EvictedMeta(metas, k)], disk.blobs);
            SaneParts(steps - {k}, metas[k.0 := EvictedMeta(metas, k)], blobs, tick, floor[k.0 := k.1], d)
  {
    FitsWithoutOldest(steps, disk.metas, metas, floor, k);
    FitsEvicted(steps, disk.metas, metas, floor, k);
    OldestIsFirst(steps, metas, floor, k);
    assert Referenced(steps - {k}) <= Referenced(steps);
  }

  /** Evicting the oldest step of a session: both disk states it leaves, and memory. */
  lemma EvictionKeeps(
      steps: StepMap, metas: MetaMap, blobs: map<Hex, nat>, tick: nat, floor: map<SessionId, nat>, disk: Disk, k: Key)
    requires Sane(steps, metas, blobs, tick, floor, disk) && Oldest(steps, k)
    ensures steps == disk.steps && MetaOf(metas, k.0).prunedThrough < k.1
    ensures Recoverable(disk.(steps := steps - {k}))
    ensures var d := Disk(steps - {k}, disk.metas[k.0 := EvictedMeta(metas, k)], disk.blobs);
            && Recoverable(d)
            && Sane(steps - {k}, metas[k.0 := EvictedMeta(metas, k)], blobs, tick, floor[k.0 := k.1], d)
    ensures Exact(steps - {k}, EvictedMeta(metas, k), k.0)
    ensures NoneMissing(metas, floor) ==> NoneMissing(metas[k.0 := EvictedMeta(metas, k)], floor[k.0 := k.1])
  {
    LookInside(steps, metas, blobs, tick, floor, disk);
    EvictionKeepsParts(steps, metas, blobs, tick, floor, disk, k);
    OldestIsFirst(steps, metas, floor, k);
    NumberedWithoutOldest(steps, metas, floor, k);
    ExactIs(steps - {k}, metas[k.0 := EvictedMeta(metas, k)], floor[k.0 := k.1], k.0);
    SaneIsRecoverable(steps - {k}, metas[k.0 := EvictedMeta(metas, k)], blobs, tick, floor[k.0 := k.1],
                      Disk(steps - {k}, disk.metas[k.0 := EvictedMeta(metas, k)], disk.blobs));
  }

  lemma InFlightWithout(steps: StepMap, busy: set<Path>, k: Key)
    requires InFlight(steps, busy) && k in steps && steps[k].status != Prepared
    ensures InFlight(steps - {k}, busy)
  {
    LookInsideFlight(steps, busy);
    var rest := steps - {k};
    forall p | p in busy ensures exists j :: j in rest && rest[j].status == Prepared && p in rest[j].Paths() {
      var j :| j in steps && steps[j].status == Prepared && p in steps[j].Paths();
      assert j in rest;
    }
    assert InFlightParts(rest, busy);
  }

  lemma SessionsKnown(
      steps: StepMap, metas: MetaMap, blobs: map<Hex, nat>, tick: nat, floor: map<SessionId, nat>, disk: Disk)
    requires Sane(steps, metas, blobs, tick, floor, disk)
    ensures forall k :: k in steps ==> k.0 in metas
  {
    LookInside(steps, metas, blobs, tick, floor, disk);
  }

  lemma SizesKnown(
      steps: StepMap, metas: MetaMap, blobs: map<Hex, nat>, tick: nat, floor: map<SessionId, nat>, disk: Disk)
    requires Sane(steps, metas, blobs, tick, floor, disk)
    ensures forall h :: h in blobs ==> blobs[h] == |h.content|
  {
    LookInside(steps, metas, blobs, tick, floor, disk);
  }

  // ----- What the writes of begin, commit and undo keep -------------------------------------------------------

  /** The blobs these entries need. */
  function FilesOf(entries: seq<Entry>): (hs: set<Hex>) {
    if entries == [] then {} else
      var hs, before := FilesOf(entries[..|entries| - 1]), entries[|entries| - 1].before;
      if before.WasFile? then hs + {before.blob} else hs
  }

  lemma {:induction false} FilesAre(entries: seq<Entry>)
    ensures forall h :: h in FilesOf(entries) <==>
              exists i :: 0 <= i < |entries| && entries[i].before.WasFile? && entries[i].before.blob == h
    decreases |entries|
  {
    if entries != [] {
      var n := |entries|;
      var init := entries[..n - 1];
      FilesAre(init);
      forall h ensures h in FilesOf(entries) <==>
                         exists i :: 0 <= i < n && entries[i].before.WasFile? && entries[i].before.blob == h {
        if i :| 0 <= i < n && entries[i].before.WasFile? && entries[i].before.blob == h {
          if i < n - 1 {
            assert init[i].before.WasFile? && init[i].before.blob == h;
          }
        }
        if h in FilesOf(init) {
          var i :| 0 <= i < |init| && init[i].before.WasFile? && init[i].before.blob == h;
          assert entries[i].before.WasFile? && entries[i].before.blob == h;
        }
      }
    }
  }

  lemma AddBlobKeeps(
      steps: StepMap, metas: MetaMap, blobs: map<Hex, nat>, tick: nat, floor: map<SessionId, nat>, disk: Disk, h: Hex)
    requires Sane(steps, metas, blobs, tick, floor, disk)
    ensures h in disk.blobs <==> h in blobs
    ensures h in blobs ==> blobs[h := |h.content|] == blobs
    ensures h !in blobs ==>
              var d := disk.(blobs := disk.blobs[h := h.content]);
              Recoverable(d) && Sane(steps, metas, blobs[h := |h.content|], tick, floor, d)
  {
    LookInside(steps, metas, blobs, tick, floor, disk);
    if h !in blobs {
      var d := disk.(blobs := disk.blobs[h := h.content]);
      assert SaneParts(steps, metas, blobs[h := |h.content|], tick, floor, d);
      SaneIsRecoverable(steps, metas, blobs[h := |h.content|], tick, floor, d);
    }
  }

  /** The floor of a session that may be new. */
  function FloorOf(floor: map<SessionId, nat>, sid: SessionId): (n: nat) {
    if sid in floor then floor[sid] else 0
  }

  function NextMeta(metas: MetaMap, sid: SessionId): (meta: SessionMeta) {
    MetaOf(metas, sid).(lastSeq := MetaOf(metas, sid).lastSeq + 1)
  }

  lemma NumberedWithNext(steps: StepMap, metas: MetaMap, floor: map<SessionId, nat>, sid: SessionId, m: Manifest)
    requires Numbered(steps, metas, floor)
    ensures var k := (sid, NextMeta(metas, sid).lastSeq);
            && k !in steps
            && Numbered(steps[k := m], metas[sid := NextMeta(metas, sid)], floor[sid := FloorOf(floor, sid)])
    ensures NoneMissing(metas, floor) ==>
              NoneMissing(metas[sid := NextMeta(metas, sid)], floor[sid := FloorOf(floor, sid)])
  {
    var n := NextMeta(metas, sid).lastSeq;
    var k: Key := (sid, n);
    var steps1, metas1, floor1 := steps[k := m], metas[sid := NextMeta(metas, sid)], floor[sid := FloorOf(floor, sid)];
    forall j: Key ensures j in steps1 <==> j.0 in metas1 && floor1[j.0] < j.1 <= metas1[j.0].lastSeq {
      assert j in steps <==> j.0 in metas && floor[j.0] < j.1 <= metas[j.0].lastSeq;
      assert j == k <==> j.0 == sid && j.1 == n;
    }
  }

  lemma FitsWithNext(
      steps: StepMap, onDisk: MetaMap, metas: MetaMap, floor: map<SessionId, nat>, sid: SessionId, m: Manifest)
    requires Fits(steps, onDisk, metas, floor)
    ensures var k := (sid, NextMeta(metas, sid).lastSeq);
            && k !in steps
            && Fits(steps[k := m], onDisk, metas[sid := NextMeta(metas, sid)], floor[sid := FloorOf(floor, sid)])
  {
    NumberedWithNext(steps, metas, floor, sid, m);
    assert sid !in metas ==> sid !in onDisk;
  }

  lemma CoveredWith(steps: StepMap, blobs: BlobStore, k: Key, m: Manifest)
    requires Covered(steps, blobs) && FilesOf(m.entries) <= blobs.Keys
    ensures Covered(steps[k := m], blobs)
  {
    var steps1 := steps[k := m];
    FilesAre(m.entries);
    forall h | h in Referenced(steps1) ensures h in blobs {
      var j, i :| j in steps1 && 0 <= i < |steps1[j].entries| && steps1[j].entries[i].before.WasFile?
                  && steps1[j].entries[i].before.blob == h;
      if j != k {
        assert h in Referenced(steps);
      }
    }
  }

  lemma KeyedWith(steps: StepMap, k: Key, m: Manifest)
    requires Keyed(steps) && m.session == k.0 && m.seqNo == k.1 && m.Sound()
    ensures Keyed(steps[k := m])
  {
  }

  /** Recording a new step under the next number of its session. */
  lemma RecordKeeps(
      steps: StepMap, metas: MetaMap, blobs: map<Hex, nat>, tick: nat, floor: map<SessionId, nat>, disk: Disk,
      m: Manifest)
    requires Sane(steps, metas, blobs, tick, floor, disk)
    requires m.seqNo == NextMeta(metas, m.session).lastSeq && m.Sound() && FilesOf(m.entries) <= blobs.Keys
    ensures steps == disk.steps && (m.session, m.seqNo) !in steps
    ensures var k, metas1 := (m.session, m.seqNo), metas[m.session := NextMeta(metas, m.session)];
            var floor1, d := floor[m.session := FloorOf(floor, m.session)], disk.(steps := disk.steps[k := m]);
            && Recoverable(d) && Sane(steps[k := m], metas1, blobs, tick, floor1, d)
            && (NoneMissing(metas, floor) ==> NoneMissing(metas1, floor1))
  {
    LookInside(steps, metas, blobs, tick, floor, disk);
    var sid := m.session;
    var k, metas1 := (sid, m.seqNo), metas[sid := NextMeta(metas, sid)];
    var floor1, d := floor[sid := FloorOf(floor, sid)], disk.(steps := disk.steps[k := m]);
    FitsWithNext(steps, disk.metas, metas, floor, sid, m);
    NumberedWithNext(steps, metas, floor, sid, m);
    CoveredWith(steps, disk.blobs, k, m);
    KeyedWith(steps, k, m);
    assert SaneParts(steps[k := m], metas1, blobs, tick, floor1, d);
    SaneIsRecoverable(steps[k := m], metas1, blobs, tick, floor1, d);
  }

  lemma FitsTouched(
      steps: StepMap, onDisk: MetaMap, metas: MetaMap, floor: map<SessionId, nat>, sid: SessionId, used: nat)
    requires Fits(steps, onDisk, metas, floor)
    ensures var meta, floor1 := MetaOf(metas, sid).(lastUsed := used), floor[sid := FloorOf(floor, sid)];
            && Fits(steps, onDisk[sid := meta], metas[sid := meta], floor1)
            && (NoneMissing(metas, floor) ==> NoneMissing(metas[sid := meta], floor1))
  {
    var meta, floor1 := MetaOf(metas, sid).(lastUsed := used), floor[sid := FloorOf(floor, sid)];
    var metas1 := metas[sid := meta];
    forall j: Key ensures j in steps <==> j.0 in metas1 && floor1[j.0] < j.1 <= metas1[j.0].lastSeq {
      assert j in steps <==> j.0 in metas && floor[j.0] < j.1 <= metas[j.0].lastSeq;
    }
  }

  /** A session's record with a new time of use. */
  lemma TouchKeeps(
      steps: StepMap, metas: MetaMap, blobs: map<Hex, nat>, tick: nat, floor: map<SessionId, nat>, disk: Disk,
      sid: SessionId)
    requires Sane(steps, metas, blobs, tick, floor, disk)
    ensures var meta, floor1 := MetaOf(metas, sid).(lastUsed := tick + 1), floor[sid := FloorOf(floor, sid)];
            var d := disk.(metas := disk.metas[sid := meta]);
            && Recoverable(d) && Sane(steps, metas[sid := meta], blobs, tick + 1, floor1, d)
            && (NoneMissing(metas, floor) ==> NoneMissing(metas[sid := meta], floor1))
  {
    LookInside(steps, metas, blobs, tick, floor, disk);
    var meta, floor1 := MetaOf(metas, sid).(lastUsed := tick + 1), floor[sid := FloorOf(floor, sid)];
    var d := disk.(metas := disk.metas[sid := meta]);
    FitsTouched(steps, disk.metas, metas, floor, sid, tick + 1);
    assert SaneParts(steps, metas[sid := meta], blobs, tick + 1, floor1, d);
    SaneIsRecoverable(steps, metas[sid := meta], blobs, tick + 1, floor1, d);
  }

  /** `b` is the same step as `a` in a later status, perhaps with the state found at commit. */
  predicate SameStep(a: Manifest, b: Manifest) {
    && a.session == b.session && a.seqNo == b.seqNo && a.root == b.root && a.createdDirs == b.createdDirs
    && |a.entries| == |b.entries|
    && forall i :: 0 <= i < |a.entries| ==> b.entries[i] == a.entries[i].(after := b.entries[i].after)
  }

  lemma SameStepSame(a: Manifest, b: Manifest)
    requires SameStep(a, b)
    ensures a.Sound() ==> b.Sound()
    ensures FilesOf(a.entries) == FilesOf(b.entries) && a.Paths() == b.Paths()
  {
    FilesAre(a.entries);
    FilesAre(b.entries);
    assert forall i :: 0 <= i < |a.entries| ==> a.entries[i].path == b.entries[i].path;
    forall h ensures h in FilesOf(a.entries) <==> h in FilesOf(b.entries) {
      if i :| 0 <= i < |a.entries| && a.entries[i].before.WasFile? && a.entries[i].before.blob == h {
        assert b.entries[i].before.WasFile? && b.entries[i].before.blob == h;
      }
      if i :| 0 <= i < |b.entries| && b.entries[i].before.WasFile? && b.entries[i].before.blob == h {
        assert a.entries[i].before.WasFile? && a.entries[i].before.blob == h;
      }
    }
    if a.Sound() {
      forall d | d in b.createdDirs ensures d != [] && exists i :: 0 <= i < |b.entries| && Above(d, b.entries[i].path) {
        var i :| 0 <= i < |a.entries| && Above(d, a.entries[i].path);
        assert Above(d, b.entries[i].path);
      }
    }
  }

  lemma StepIsCovered(steps: StepMap, blobs: BlobStore, k: Key)
    requires Covered(steps, blobs) && k in steps
    ensures FilesOf(steps[k].entries) <= blobs.Keys
  {
    FilesAre(steps[k].entries);
    forall h | h in FilesOf(steps[k].entries) ensures h in blobs {
      var i :| 0 <= i < |steps[k].entries| && steps[k].entries[i].before.WasFile? && steps[k].entries[i].before.blob == h;
      assert h in Referenced(steps);
    }
  }

  /** Numbers are about keys alone. */
  lemma FitsSameKeys(
      steps: StepMap, steps1: StepMap, onDisk: MetaMap, metas: MetaMap, floor: map<SessionId, nat>)
    requires Fits(steps, onDisk, metas, floor) && steps1.Keys == steps.Keys
    ensures Fits(steps1, onDisk, metas, floor)
  {
    forall k: Key ensures k in steps1 <==> k in steps {
    }
  }

  lemma RestatusStays(steps: StepMap, blobs: BlobStore, k: Key, m: Manifest)
    requires Keyed(steps) && Covered(steps, blobs) && k in steps && SameStep(steps[k], m)
    ensures Keyed(steps[k := m]) && Covered(steps[k := m], blobs) && steps[k := m].Keys == steps.Keys
  {
    SameStepSame(steps[k], m);
    StepIsCovered(steps, blobs, k);
    CoveredWith(steps, blobs, k, m);
  }

  /** Rewriting a manifest with a later status. */
  lemma RestatusKeeps(
      steps: StepMap, metas: MetaMap, blobs: map<Hex, nat>, tick: nat, floor: map<SessionId, nat>, disk: Disk,
      k: Key, m: Manifest)
    requires Sane(steps, metas, blobs, tick, floor, disk) && k in steps && SameStep(steps[k], m)
    ensures steps == disk.steps
    ensures var d := disk.(steps := disk.steps[k := m]);
            Recoverable(d) && Sane(steps[k := m], metas, blobs, tick, floor, d)
  {
    LookInside(steps, metas, blobs, tick, floor, disk);
    var d := disk.(steps := disk.steps[k := m]);
    RestatusStays(steps, disk.blobs, k, m);
    FitsSameKeys(steps, steps[k := m], disk.metas, metas, floor);
    assert SaneParts(steps[k := m], metas, blobs, tick, floor, d);
    SaneIsRecoverable(steps[k := m], metas, blobs, tick, floor, d);
  }

  lemma InFlightWith(steps: StepMap, busy: set<Path>, k: Key, m: Manifest)
    requires InFlight(steps, busy) && k !in steps && m.status == Prepared && m.Paths() !! busy
    ensures InFlight(steps[k := m], busy + m.Paths())
  {
    LookInsideFlight(steps, busy);
    var steps1, busy1 := steps[k := m], busy + m.Paths();
    forall p | p in busy1 ensures exists j :: j in steps1 && steps1[j].status == Prepared && p in steps1[j].Paths() {
      if p in busy {
        var j :| j in steps && steps[j].status == Prepared && p in steps[j].Paths();
        assert j in steps1;
      } else {
        assert k in steps1;
      }
    }
    assert InFlightParts(steps1, busy1);
  }

  /** Finishing one step never frees a path of another. */
  lemma InFlightFinished(steps: StepMap, busy: set<Path>, k: Key, m: Manifest)
    requires InFlight(steps, busy) && k in steps && steps[k].status == Prepared && m.status != Prepared
    ensures InFlight(steps[k := m], busy - steps[k].Paths())
  {
    LookInsideFlight(steps, busy);
    var steps1, busy1 := steps[k := m], busy - steps[k].Paths();
    forall p | p in busy1 ensures exists j :: j in steps1 && steps1[j].status == Prepared && p in steps1[j].Paths() {
      var j :| j in steps && steps[j].status == Prepared && p in steps[j].Paths();
      assert j in steps1;
    }
    assert InFlightParts(steps1, busy1);
  }

  lemma InFlightRestatus(steps: StepMap, busy: set<Path>, k: Key, m: Manifest)
    requires InFlight(steps, busy) && k in steps && steps[k].status != Prepared && m.status != Prepared
    ensures InFlight(steps[k := m], busy)
  {
    LookInsideFlight(steps, busy);
    var steps1 := steps[k := m];
    forall p | p in busy ensures exists j :: j in steps1 && steps1[j].status == Prepared && p in steps1[j].Paths() {
      var j :| j in steps && steps[j].status == Prepared && p in steps[j].Paths();
      assert j in steps1;
    }
    assert InFlightParts(steps1, busy);
  }

  // ----- Recovery ----------------------------------------------------------------------------------------------

  /** A step that was in flight when the process ended becomes interrupted. */
  function RecoverStep(m: Manifest): (r: Manifest) {
    if m.status == Prepared then m.(status := Interrupted) else m
  }

  function RecoverSteps(steps: StepMap): (r: StepMap) {
    map k | k in steps :: RecoverStep(steps[k])
  }

  /** The sessions there is a directory for. */
  function Known(d: Disk): (sids: set<SessionId>) {
    d.metas.Keys + set k | k in d.steps :: k.0
  }

  /** The record `load` makes: the one on disk, but with the highest number any kept step bears. */
  ghost predicate IsRecovered(d: Disk, sid: SessionId, meta: SessionMeta) {
    var onDisk := MetaOf(d.metas, sid);
    && meta.lastUsed == onDisk.lastUsed && meta.prunedThrough == onDisk.prunedThrough
    && onDisk.lastSeq <= meta.lastSeq
    && (forall k :: k in d.steps && k.0 == sid ==> k.1 <= meta.lastSeq)
    && (meta.lastSeq == onDisk.lastSeq || (sid, meta.lastSeq) in d.steps)
  }

  lemma RecoveredIsTheRecord(
      d: Disk, metas: MetaMap, floor: map<SessionId, nat>, sid: SessionId, meta: SessionMeta)
    requires Fits(d.steps, d.metas, metas, floor) && sid in Known(d) && IsRecovered(d, sid, meta)
    ensures sid in metas && meta == metas[sid]
  {
    if sid !in d.metas {
      var k :| k in d.steps && k.0 == sid;
    }
    assert MetaAgrees(metas[sid], floor[sid], MetaOf(d.metas, sid));
    if floor[sid] < metas[sid].lastSeq {
      assert (sid, metas[sid].lastSeq) in d.steps;
    }
    if (sid, meta.lastSeq) in d.steps {
      assert meta.lastSeq <= metas[sid].lastSeq;
    }
  }

  lemma FloorIsDetermined(
      d: Disk, metas: MetaMap, floor: map<SessionId, nat>, metas1: MetaMap, floor1: map<SessionId, nat>, sid: SessionId)
    requires Fits(d.steps, d.metas, metas, floor) && Fits(d.steps, d.metas, metas1, floor1)
    requires sid in metas && sid in metas1 && metas[sid] == metas1[sid]
    ensures floor[sid] == floor1[sid]
  {
    assert (sid, floor[sid] + 1) in d.steps <==> floor[sid] < metas[sid].lastSeq;
    assert (sid, floor1[sid] + 1) in d.steps <==> floor1[sid] < metas[sid].lastSeq;
    assert (sid, floor1[sid] + 1) in d.steps <==> floor[sid] < floor1[sid] + 1 <= metas[sid].lastSeq;
    assert (sid, floor[sid] + 1) in d.steps <==> floor1[sid] < floor[sid] + 1 <= metas[sid].lastSeq;
  }

  /** Read from any disk that fits a memory, the record of a session is the one in that memory. */
  lemma RecordIsRecovered(d: Disk, metas: MetaMap, floor: map<SessionId, nat>, sid: SessionId)
    requires Fits(d.steps, d.metas, metas, floor)
    ensures IsRecovered(d, sid, MetaOf(metas, sid))
    ensures forall meta :: IsRecovered(d, sid, meta) ==> meta == MetaOf(metas, sid)
  {
    if sid in metas {
      assert MetaAgrees(metas[sid], floor[sid], MetaOf(d.metas, sid));
      if floor[sid] < metas[sid].lastSeq {
        assert (sid, metas[sid].lastSeq) in d.steps;
      }
    }
    forall meta | IsRecovered(d, sid, meta) ensures meta == MetaOf(metas, sid) {
      if sid in Known(d) {
        RecoveredIsTheRecord(d, metas, floor, sid, meta);
      } else {
        assert (sid, meta.lastSeq) !in d.steps;
      }
    }
  }

  /** A store that is opened on this disk keeps of the session exactly the steps above the pruned ones. */
  ghost predicate Whole(d: Disk, sid: SessionId) {
    exists meta :: IsRecovered(d, sid, meta) && Exact(d.steps, meta, sid)
  }

  lemma WholeIs(d: Disk, metas: MetaMap, floor: map<SessionId, nat>, sid: SessionId)
    requires Fits(d.steps, d.metas, metas, floor)
    ensures Whole(d, sid) <==> Exact(d.steps, MetaOf(metas, sid), sid)
    ensures Whole(d, sid) <==> (sid in metas ==> floor[sid] == metas[sid].prunedThrough)
  {
    RecordIsRecovered(d, metas, floor, sid);
    ExactIs(d.steps, metas, floor, sid);
  }

  /** All records together. */
  ghost predicate AllRecovered(d: Disk, sessions: MetaMap) {
    sessions.Keys == Known(d) && forall sid :: sid in sessions ==> IsRecovered(d, sid, sessions[sid])
  }

  function FloorFor(floor: map<SessionId, nat>, sids: set<SessionId>): (r: map<SessionId, nat>) {
    map sid | sid in floor && sid in sids :: floor[sid]
  }

  predicate SameRecords(sessions: MetaMap, metas: MetaMap) {
    forall sid :: sid in sessions ==> sid in metas && sessions[sid] == metas[sid]
  }

  lemma RecoveredNumbers(d: Disk, sessions: MetaMap, metas: MetaMap, floor: map<SessionId, nat>)
    requires Numbered(d.steps, metas, floor) && sessions.Keys == Known(d) && SameRecords(sessions, metas)
    ensures Numbered(d.steps, sessions, FloorFor(floor, sessions.Keys))
  {
    var floor1 := FloorFor(floor, sessions.Keys);
    assert floor1.Keys == sessions.Keys;
    forall k: Key ensures k in d.steps <==> k.0 in sessions && floor1[k.0] < k.1 <= sessions[k.0].lastSeq {
      assert k in d.steps ==> k.0 in Known(d);
    }
  }

  lemma RecoveredFits(d: Disk, sessions: MetaMap, metas: MetaMap, floor: map<SessionId, nat>)
    requires Fits(d.steps, d.metas, metas, floor) && AllRecovered(d, sessions)
    ensures SameRecords(sessions, metas)
    ensures Fits(d.steps, d.metas, sessions, FloorFor(floor, sessions.Keys))
  {
    forall sid | sid in sessions ensures sid in metas && sessions[sid] == metas[sid] {
      RecoveredIsTheRecord(d, metas, floor, sid, sessions[sid]);
    }
    RecoveredNumbers(d, sessions, metas, floor);
    assert forall sid :: sid in sessions ==> MetaAgrees(metas[sid], floor[sid], MetaOf(d.metas, sid));
  }

  lemma RecoverStepSame(m: Manifest)
    ensures SameStep(m, RecoverStep(m)) && RecoverStep(m).entries == m.entries && RecoverStep(m).status != Prepared
    ensures m.Sound() ==> RecoverStep(m).Sound()
  {
    SameStepSame(m, RecoverStep(m));
  }

  lemma RecoverStepsSame(steps: StepMap)
    ensures RecoverSteps(steps).Keys == steps.Keys && Referenced(RecoverSteps(steps)) == Referenced(steps)
    ensures Keyed(steps) ==> Keyed(RecoverSteps(steps))
    ensures InFlight(RecoverSteps(steps), {})
  {
    var r := RecoverSteps(steps);
    forall k | k in steps ensures r[k].entries == steps[k].entries && r[k].status != Prepared {
      RecoverStepSame(steps[k]);
    }
    if Keyed(steps) {
      forall k | k in r ensures r[k].session == k.0 && r[k].seqNo == k.1 && r[k].Sound() {
        RecoverStepSame(steps[k]);
      }
    }
    assert InFlightParts(r, {});
  }

  /** The state after loading, before unneeded blobs are collected. */
  lemma LoadedIsSane(d: Disk, sessions: MetaMap, blobs: map<Hex, nat>, tick: nat, metas: MetaMap, floor: map<SessionId, nat>)
    requires Recoverable(d) && AllRecovered(d, sessions) && Sizes(blobs, d.blobs) && Ticks(sessions, tick)
    requires Fits(d.steps, d.metas, metas, floor)
    ensures Sane(RecoverSteps(d.steps), sessions, blobs, tick, FloorFor(floor, sessions.Keys),
                 d.(steps := RecoverSteps(d.steps)))
  {
    assert Inside(d);
    RecoveredFits(d, sessions, metas, floor);
    RecoverStepsSame(d.steps);
    var d1 := d.(steps := RecoverSteps(d.steps));
    assert Fits(d1.steps, d1.metas, sessions, FloorFor(floor, sessions.Keys));
    assert SaneParts(d1.steps, sessions, blobs, tick, FloorFor(floor, sessions.Keys), d1);
  }

  lemma RestatusRecoverable(d: Disk, k: Key, m: Manifest)
    requires Recoverable(d) && k in d.steps && SameStep(d.steps[k], m)
    ensures Recoverable(d.(steps := d.steps[k := m]))
  {
    assert Inside(d);
    var metas, floor :| Fits(d.steps, d.metas, metas, floor);
    var d1 := d.(steps := d.steps[k := m]);
    RestatusStays(d.steps, d.blobs, k, m);
    FitsSameKeys(d.steps, d1.steps, d.metas, metas, floor);
    assert RecoverableParts(d1);
  }

  lemma SomeMemoryFits(d: Disk) returns (metas: MetaMap, floor: map<SessionId, nat>)
    requires Recoverable(d)
    ensures Fits(d.steps, d.metas, metas, floor)
  {
    assert Inside(d);
    metas, floor :| Fits(d.steps, d.metas, metas, floor);
  }

  /** `done` are the steps read so far. */
  ghost predicate HalfParts(d: Disk, done: set<Key>, manifests: StepMap, disk: Disk) {
    && Recoverable(disk) && disk.metas == d.metas && disk.blobs == d.blobs && disk.steps.Keys == d.steps.Keys
    && manifests.Keys == done <= d.steps.Keys
    && (forall k :: k in d.steps ==> d.steps[k].seqNo == k.1)
    && (forall k :: k in done ==> manifests[k] == RecoverStep(d.steps[k]))
    && (forall k :: k in d.steps ==> disk.steps[k] == if k in done then RecoverStep(d.steps[k]) else d.steps[k])
  }

  ghost predicate InsideHalf(disk: Disk) {
    true
  }

  ghost predicate InsideLoading(disk: Disk) {
    true
  }

  ghost predicate Half(d: Disk, done: set<Key>, manifests: StepMap, disk: Disk) {
    forall e: Disk {:trigger InsideHalf(e)} :: e == disk ==> HalfParts(d, done, manifests, e)
  }

  lemma HalfDisk(d: Disk, done: set<Key>, manifests: StepMap, disk: Disk)
    requires Half(d, done, manifests, disk)
    ensures disk.metas == d.metas && disk.steps.Keys == d.steps.Keys
  {
    assert InsideHalf(disk);
  }

  function KeysOutside(d: Disk, todo: set<SessionId>): (ks: set<Key>) {
    set k | k in d.steps && k.0 !in todo
  }

  /** The sessions in `todo` are still to be read. */
  ghost predicate LoadingParts(
      d: Disk, todo: set<SessionId>, manifests: StepMap, sessions: MetaMap, tick: nat, disk: Disk)
  {
    && Half(d, KeysOutside(d, todo), manifests, disk)
    && sessions.Keys == Known(d) - todo
    && (forall sid :: sid in sessions ==> IsRecovered(d, sid, sessions[sid]))
    && Ticks(sessions, tick)
  }

  ghost predicate Loading(
      d: Disk, todo: set<SessionId>, manifests: StepMap, sessions: MetaMap, tick: nat, disk: Disk)
  {
    forall e: Disk {:trigger InsideLoading(e)} :: e == disk ==> LoadingParts(d, todo, manifests, sessions, tick, e)
  }

  lemma LoadingIsHalf(
      d: Disk, todo: set<SessionId>, manifests: StepMap, sessions: MetaMap, tick: nat, disk: Disk)
    requires Loading(d, todo, manifests, sessions, tick, disk)
    ensures Half(d, KeysOutside(d, todo), manifests, disk)
  {
    assert InsideLoading(disk);
  }

  lemma LoadingStarts(d: Disk)
    requires Recoverable(d)
    ensures Loading(d, Known(d), map[], map[], 0, d)
  {
    assert Inside(d);
    assert KeysOutside(d, Known(d)) == {};
    assert HalfParts(d, {}, map[], d);
    assert LoadingParts(d, Known(d), map[], map[], 0, d);
  }

  lemma OneStepReadParts(d: Disk, done: set<Key>, manifests: StepMap, disk: Disk, k: Key, m: Manifest, disk1: Disk)
    requires HalfParts(d, done, manifests, disk) && k in d.steps && k !in done && m == RecoverStep(d.steps[k])
    requires disk1 == disk.(steps := disk.steps[k := m]) && Recoverable(disk1)
    ensures HalfParts(d, done + {k}, manifests[k := m], disk1)
  {
  }

  lemma OneStepRead(d: Disk, done: set<Key>, manifests: StepMap, disk: Disk, k: Key)
    requires Half(d, done, manifests, disk) && k in d.steps && k !in done
    ensures k in disk.steps && disk.steps[k] == d.steps[k] && d.steps[k].seqNo == k.1
    ensures var m := RecoverStep(d.steps[k]);
            var disk1 := if d.steps[k].status == Prepared then disk.(steps := disk.steps[k := m]) else disk;
            Recoverable(disk1) && Half(d, done + {k}, manifests[k := m], disk1)
  {
    assert HalfParts(d, done, manifests, disk) by {
      assert InsideHalf(disk);
    }
    var m := RecoverStep(d.steps[k]);
    var disk1 := disk.(steps := disk.steps[k := m]);
    RestatusRecoverable(disk, k, m);
    OneStepReadParts(d, done, manifests, disk, k, m, disk1);
    if d.steps[k].status != Prepared {
      assert disk.steps[k := m] == disk.steps;
    }
    assert Half(d, done + {k}, manifests[k := m], disk1);
  }

  /** The record after the steps in `read`. */
  ghost predicate RecordSoFar(d: Disk, sid: SessionId, read: set<Key>, meta: SessionMeta) {
    var onDisk := MetaOf(d.metas, sid);
    && meta.lastUsed == onDisk.lastUsed && meta.prunedThrough == onDisk.prunedThrough
    && onDisk.lastSeq <= meta.lastSeq
    && (forall k :: k in read ==> k.1 <= meta.lastSeq)
    && (meta.lastSeq == onDisk.lastSeq || (sid, meta.lastSeq) in d.steps)
  }

  /** When all the keys of the session have been read, the record is recovered. */
  lemma AllKeysRead(
      d: Disk, done0: set<Key>, done: set<Key>, all: set<Key>, keys: set<Key>, sid: SessionId, meta: SessionMeta)
    requires all == (set k: Key | k in d.steps && k.0 == sid) && keys == {} && done == done0 + (all - keys)
    requires RecordSoFar(d, sid, all - keys, meta)
    ensures done == done0 + (set k: Key | k in d.steps && k.0 == sid) && IsRecovered(d, sid, meta)
  {
    assert all - keys == all;
  }

  lemma RecordGrows(d: Disk, sid: SessionId, read: set<Key>, meta: SessionMeta, k: Key)
    requires RecordSoFar(d, sid, read, meta) && k in d.steps && k.0 == sid
    ensures RecordSoFar(d, sid, read + {k}, if meta.lastSeq < k.1 then meta.(lastSeq := k.1) else meta)
  {
    assert k == (sid, k.1);
  }

  lemma OneMoreDone(done0: set<Key>, all: set<Key>, keys: set<Key>, k: Key)
    requires k in keys && keys <= all
    ensures all - (keys - {k}) == all - keys + {k} && keys - {k} <= all
    ensures done0 + (all - (keys - {k})) == done0 + (all - keys) + {k}
  {
  }

  /** Memory after the last session was read. */
  lemma LoadingEnds(d: Disk, manifests: StepMap, sessions: MetaMap, tick: nat, disk: Disk)
    requires Loading(d, {}, manifests, sessions, tick, disk)
    ensures manifests == RecoverSteps(d.steps) && disk == d.(steps := RecoverSteps(d.steps))
    ensures AllRecovered(d, sessions) && Ticks(sessions, tick)
  {
    assert InsideLoading(disk);
    assert HalfParts(d, KeysOutside(d, {}), manifests, disk) by {
      assert InsideHalf(disk);
    }
    assert KeysOutside(d, {}) == d.steps.Keys;
    assert manifests == RecoverSteps(d.steps);
    assert disk.steps == RecoverSteps(d.steps);
  }

  lemma RecordsAreDetermined(
      d: Disk, sessions: MetaMap, metas: MetaMap, floor: map<SessionId, nat>, metas1: MetaMap, floor1: map<SessionId, nat>)
    requires AllRecovered(d, sessions)
    requires Fits(d.steps, d.metas, metas, floor) && Fits(d.steps, d.metas, metas1, floor1)
    ensures SameRecords(sessions, metas1)
    ensures NoneMissing(metas1, floor1) ==> NoneMissing(sessions, FloorFor(floor, sessions.Keys))
  {
    RecoveredFits(d, sessions, metas, floor);
    RecoveredFits(d, sessions, metas1, floor1);
    forall sid | sid in sessions ensures floor[sid] == floor1[sid] {
      FloorIsDetermined(d, metas, floor, metas1, floor1, sid);
    }
  }

  lemma LoadedSizes(d: Disk, blobs: map<Hex, nat>)
    requires Recoverable(d) && blobs.Keys == d.blobs.Keys && forall h :: h in blobs ==> blobs[h] == |d.blobs[h]|
    ensures Sizes(blobs, d.blobs)
  {
    assert Inside(d);
    forall h | h in blobs ensures blobs[h] == |h.content| {
      assert Sha(d.blobs[h]) == h;
    }
  }

  /** One more session is read. */
  lemma OneSessionRead(
      d: Disk, todo: set<SessionId>, sid: SessionId, before: StepMap, manifests: StepMap, sessions: MetaMap,
      tick: nat, diskBefore: Disk, disk: Disk, meta: SessionMeta)
    requires Loading(d, todo, before, sessions, tick, diskBefore) && sid in todo && sid in Known(d)
    requires Half(d, KeysOutside(d, todo - {sid}), manifests, disk) && IsRecovered(d, sid, meta)
    ensures Loading(d, todo - {sid}, manifests, sessions[sid := meta],
                    if tick < meta.lastUsed then meta.lastUsed else tick, disk)
  {
    assert InsideLoading(diskBefore);
    assert LoadingParts(d, todo - {sid}, manifests, sessions[sid := meta],
                        if tick < meta.lastUsed then meta.lastUsed else tick, disk);
  }

  /** The records read are those of any memory the disk can be the disk of, and none is missing if none was. */
  ghost predicate LoadedParts(d: Disk, sessions: MetaMap, floor: map<SessionId, nat>) {
    && sessions.Keys == Known(d)
    && forall metas, floor0 :: Fits(d.steps, d.metas, metas, floor0) ==>
         SameRecords(sessions, metas) && (NoneMissing(metas, floor0) ==> NoneMissing(sessions, floor))
  }

  ghost predicate InsideLoaded(d: Disk) {
    true
  }

  ghost predicate Loaded(d: Disk, sessions: MetaMap, floor: map<SessionId, nat>) {
    forall e: Disk {:trigger InsideLoaded(e)} :: e == d ==> LoadedParts(e, sessions, floor)
  }

  lemma LookInsideLoaded(d: Disk, sessions: MetaMap, floor: map<SessionId, nat>)
    requires Loaded(d, sessions, floor)
    ensures LoadedParts(d, sessions, floor)
  {
    assert InsideLoaded(d);
  }

  /** Everything that holds once loading is done. */
  lemma LoadedState(d: Disk, manifests: StepMap, sessions: MetaMap, blobs: map<Hex, nat>, tick: nat, disk: Disk)
    returns (floor: map<SessionId, nat>)
    requires Recoverable(d) && Loading(d, {}, manifests, sessions, tick, disk)
    requires blobs.Keys == d.blobs.Keys && forall h :: h in blobs ==> blobs[h] == |d.blobs[h]|
    ensures Sane(manifests, sessions, blobs, tick, floor, disk)
    ensures manifests == RecoverSteps(d.steps) && Referenced(manifests) == Referenced(d.steps) && InFlight(manifests, {})
    ensures Loaded(d, sessions, floor)
  {
    LoadingEnds(d, manifests, sessions, tick, disk);
    LoadedSizes(d, blobs);
    var metas, floor0 := SomeMemoryFits(d);
    LoadedIsSane(d, sessions, blobs, tick, metas, floor0);
    RecoverStepsSame(d.steps);
    floor := FloorFor(floor0, sessions.Keys);
    forall metas1, floor1 | Fits(d.steps, d.metas, metas1, floor1)
      ensures SameRecords(sessions, metas1) && (NoneMissing(metas1, floor1) ==> NoneMissing(sessions, floor))
    {
      RecordsAreDetermined(d, sessions, metas, floor0, metas1, floor1);
    }
    assert LoadedParts(d, sessions, floor);
  }
}
