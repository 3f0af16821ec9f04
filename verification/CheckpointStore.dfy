/** The checkpoint store (`agent-checkpoints/src/store.rs`): begin a step, finish it, undo steps, prune
    the least recently used sessions, and recover after a crash. */
module CheckpointStore {
  import opened Wrappers
  import opened FileTree
  import opened Steps
  import opened Undo
  import opened UndoTheorems
  import opened UndoInverse
  import opened StepBegin
  import opened StoreState
  import opened UndoRun
  import opened StoreInvariants
  import opened StoreTrail

  class CheckpointStore {
    const maxStoreBytes: nat
    const maxFileBytes: nat
    var manifests: StepMap
    var sessions: MetaMap
    var blobs: map<Hex, nat>
    var busy: set<Path>
    var tick: nat
    var disk: Disk
    /** Every state the disk has been in since the store was opened. */
    ghost var trail: seq<Moment>
    /** Per session, the kept steps are those with a number above this. */
    ghost var floor: map<SessionId, nat>

    ghost predicate Valid()
      reads this
    {
      && Sane(manifests, sessions, blobs, tick, floor, disk)
      && Story(trail) && Now(trail, disk, LastsOf(sessions))
    }

    /** What pruning works on. */
    ghost function View(): (c: Kept)
      reads this
    {
      Kept(manifests, sessions, blobs.Keys)
    }

    /** One durable write. */
    method Write(d: Disk, ghost last: map<SessionId, nat>, ghost evicting: Option<Key>)
      requires Story(trail) && Safe(Moment(d, last, evicting)) && Follows(trail[|trail| - 1], Moment(d, last, evicting))
      modifies `disk, `trail
      ensures disk == d && Story(trail) && trail == old(trail) + [Moment(d, last, evicting)]
    {
      OneMoreMoment(trail, Moment(d, last, evicting));
      disk := d;
      trail := trail + [Moment(d, last, evicting)];
    }

    // ----- Opening --------------------------------------------------------------------------------------------

    /** Opens the store on what a clean end or a crash left on disk. */
    constructor Open(d: Disk, maxStoreBytes: nat, maxFileBytes: nat)
      requires Recoverable(d)
      ensures Valid() && busy == {} && InFlight(manifests, busy)
      ensures this.maxStoreBytes == maxStoreBytes && this.maxFileBytes == maxFileBytes
      ensures manifests == RecoverSteps(d.steps) && Loaded(d, sessions, floor)
      ensures blobs.Keys == d.blobs.Keys * Referenced(d.steps)
      ensures trail[0].disk == d && trail[0].evicting.None?
    {
      this.maxStoreBytes := maxStoreBytes;
      this.maxFileBytes := maxFileBytes;
      manifests, sessions, blobs, busy, tick, disk := map[], map[], map[], {}, 0, d;
      ghost var last := WhatIsShown(d);
      trail, floor := [Moment(d, last, None)], map[];
      new;
      ShownIsSafe(d, last, d);
      StoryStarts(Moment(d, last, None));
      LoadingStarts(d);
      Load(d, last);
      Gc();
    }

    /** Reads every session. */
    method Load(d: Disk, ghost last: map<SessionId, nat>)
      requires Recoverable(d) && Loading(d, Known(d), manifests, sessions, tick, disk)
      requires Story(trail) && Now(trail, disk, last) && Shows(d, last)
      modifies `manifests, `sessions, `tick, `disk, `trail, `blobs, `floor
      ensures Valid() && old(trail) <= trail && InFlight(manifests, {})
      ensures manifests == RecoverSteps(d.steps) && Loaded(d, sessions, floor)
      ensures blobs.Keys == d.blobs.Keys && Referenced(manifests) == Referenced(d.steps)
    {
      var todo := Known(d);
      while todo != {}
        invariant todo <= Known(d) && Loading(d, todo, manifests, sessions, tick, disk)
        invariant Story(trail) && Now(trail, disk, last) && old(trail) <= trail
        decreases |todo|
      {
        var sid :| sid in todo;
        LoadSession(d, last, todo, sid);
        todo := todo - {sid};
      }
      blobs := map h | h in d.blobs :: |d.blobs[h]|;
      floor := LoadedState(d, manifests, sessions, blobs, tick, disk);
      LoadedShows(d, last, sessions, floor);
    }

    /** Reads one step. */
    method ReadStep(d: Disk, ghost last: map<SessionId, nat>, ghost done: set<Key>, k: Key, meta0: SessionMeta)
      returns (meta: SessionMeta)
      requires Half(d, done, manifests, disk) && k in d.steps && k !in done
      requires Story(trail) && Now(trail, disk, last) && Shows(d, last)
      modifies `manifests, `disk, `trail
      ensures Half(d, done + {k}, manifests, disk) && Story(trail) && Now(trail, disk, last) && old(trail) <= trail
      ensures meta == if meta0.lastSeq < k.1 then meta0.(lastSeq := k.1) else meta0
    {
      HalfDisk(d, done, manifests, disk);
      OneStepRead(d, done, manifests, disk, k);
      var m := disk.steps[k];
      if m.status == Prepared {
        m := m.(status := Interrupted);
        LoadingWrite(d, last, disk, k, m);
        Write(disk.(steps := disk.steps[k := m]), last, None);
      }
      meta := if meta0.lastSeq < m.seqNo then meta0.(lastSeq := m.seqNo) else meta0;
      manifests := manifests[k := m];
    }

    /** Reads one session's steps: those in flight become interrupted, and the last number is at least that
        of every step. */
    method LoadSteps(d: Disk, ghost last: map<SessionId, nat>, ghost done0: set<Key>, sid: SessionId)
      returns (meta: SessionMeta)
      requires Half(d, done0, manifests, disk) && Story(trail) && Now(trail, disk, last) && Shows(d, last)
      requires forall k :: k in done0 ==> k.0 != sid
      modifies `manifests, `disk, `trail
      ensures Half(d, done0 + (set k: Key | k in d.steps && k.0 == sid), manifests, disk)
      ensures Story(trail) && Now(trail, disk, last) && old(trail) <= trail
      ensures IsRecovered(d, sid, meta)
    {
      HalfDisk(d, done0, manifests, disk);
      meta := MetaOf(disk.metas, sid);
      var keys := set k: Key | k in disk.steps && k.0 == sid;
      ghost var all, done := keys, done0;
      while keys != {}
        invariant keys <= all && done == done0 + (all - keys)
        invariant Half(d, done, manifests, disk) && Story(trail) && Now(trail, disk, last) && old(trail) <= trail
        invariant RecordSoFar(d, sid, all - keys, meta)
        decreases |keys|
      {
        var k: Key :| k in keys;
        OneMoreDone(done0, all, keys, k);
        RecordGrows(d, sid, all - keys, meta, k);
        meta := ReadStep(d, last, done, k, meta);
        keys := keys - {k};
        done := done + {k};
      }
      AllKeysRead(d, done0, done, all, keys, sid, meta);
    }

    method LoadSession(d: Disk, ghost last: map<SessionId, nat>, ghost todo: set<SessionId>, sid: SessionId)
      requires Loading(d, todo, manifests, sessions, tick, disk) && sid in todo && todo <= Known(d)
      requires Story(trail) && Now(trail, disk, last) && Shows(d, last)
      modifies `manifests, `sessions, `tick, `disk, `trail
      ensures Loading(d, todo - {sid}, manifests, sessions, tick, disk)
      ensures Story(trail) && Now(trail, disk, last) && old(trail) <= trail
    {
      ghost var before, diskBefore := manifests, disk;
      LoadingIsHalf(d, todo, manifests, sessions, tick, disk);
      var meta := LoadSteps(d, last, KeysOutside(d, todo), sid);
      assert KeysOutside(d, todo - {sid}) == KeysOutside(d, todo) + (set k: Key | k in d.steps && k.0 == sid);
      OneSessionRead(d, todo, sid, before, manifests, sessions, tick, diskBefore, disk, meta);
      if tick < meta.lastUsed {
        tick := meta.lastUsed;
      }
      sessions := sessions[sid := meta];
    }

    // ----- Collecting and pruning ---------------------------------------------------------------------------

    /** Removes every blob no manifest refers to. */
    method Gc()
      requires Valid()
      modifies `blobs, `disk, `trail
      ensures Valid() && old(trail) <= trail
      ensures blobs.Keys == old(blobs.Keys) * Referenced(manifests)
      ensures disk.steps == old(disk.steps) && disk.metas == old(disk.metas)
    {
      var dead := set h | h in blobs && h !in Referenced(manifests);
      ghost var all, gone, keys0 := dead, {}, blobs.Keys;
      while dead != {}
        invariant Valid() && old(trail) <= trail
        invariant gone <= all && dead == all - gone && blobs.Keys == keys0 - gone
        invariant disk.steps == old(disk.steps) && disk.metas == old(disk.metas)
        decreases |dead|
      {
        var h :| h in dead;
        OneMoreGone(all, gone, h);
        KeysMinusOneMore(keys0, gone, h);
        DropBlob(h);
        dead, gone := dead - {h}, gone + {h};
      }
      NeededStay(keys0, Referenced(manifests), gone);
    }

    /** Removes one blob that no manifest refers to. */
    method DropBlob(h: Hex)
      requires Valid() && h !in Referenced(manifests)
      modifies `blobs, `disk, `trail
      ensures Valid() && old(trail) <= trail && blobs == old(blobs) - {h}
      ensures disk.steps == old(disk.steps) && disk.metas == old(disk.metas)
    {
      ghost var d := disk.(blobs := disk.blobs - {h});
      DroppingBlobsKeeps(manifests, sessions, blobs, tick, floor, disk, {h});
      QuietWrite(manifests, sessions, blobs, tick, floor, disk, sessions, blobs - {h}, tick, floor, d);
      Write(disk.(blobs := disk.blobs - {h}), LastsOf(sessions), None);
      blobs := blobs - {h};
    }

    /** The sum of the sizes in memory. */
    method SumOfSizes() returns (total: nat)
      requires Valid()
      ensures total == Total(blobs.Keys)
    {
      SizesKnown(manifests, sessions, blobs, tick, floor, disk);
      total := 0;
      var todo := blobs.Keys;
      while todo != {}
        invariant todo <= blobs.Keys && total + Total(todo) == Total(blobs.Keys)
        decreases |todo|
      {
        var h :| h in todo;
        TotalWithout(todo, h);
        total := total + blobs[h];
        todo := todo - {h};
      }
    }

    /** The number of the oldest kept step of a session. */
    method OldestOf(sid: SessionId) returns (r: Option<nat>)
      ensures r.None? ==> forall k :: k in manifests ==> k.0 != sid
      ensures r.Some? ==> Oldest(manifests, (sid, r.value))
    {
      r := None;
      var todo := manifests.Keys;
      while todo != {}
        invariant todo <= manifests.Keys
        invariant r.None? ==> forall k :: k in manifests && k !in todo ==> k.0 != sid
        invariant r.Some? ==> (sid, r.value) in manifests
        invariant r.Some? ==> forall k :: k in manifests && k !in todo && k.0 == sid ==> r.value <= k.1
        decreases |todo|
      {
        var k: Key :| k in todo;
        if k.0 == sid && (r.None? || k.1 < r.value) {
          r := Some(k.1);
        }
        todo := todo - {k};
      }
    }

    /** The oldest step of the least recently used session whose oldest step is not in flight. */
    method PickVictim() returns (v: Option<Key>)
      requires forall k :: k in manifests ==> k.0 in sessions
      ensures v.None? ==> forall k :: !Evictable(manifests, k)
      ensures v.Some? ==> IsVictim(manifests, sessions, v.value)
      ensures v.Some? ==>
                Evictable(manifests, v.value)
                && forall k :: Evictable(manifests, k) && k != v.value ==> GoesFirst(sessions, v.value.0, k.0)
    {
      v := None;
      var todo := sessions.Keys;
      while todo != {}
        invariant todo <= sessions.Keys
        invariant v.None? ==> forall k :: Evictable(manifests, k) ==> k.0 in todo
        invariant v.Some? ==> Evictable(manifests, v.value)
        invariant v.Some? ==> forall k :: Evictable(manifests, k) && k.0 !in todo ==> UsedBefore(sessions, v.value, k)
        decreases |todo|
      {
        var sid :| sid in todo;
        var seqNo := OldestOf(sid);
        if seqNo.Some? && manifests[(sid, seqNo.value)].status != Prepared {
          if v.None? || !UsedBefore(sessions, v.value, (sid, seqNo.value)) {
            v := Some((sid, seqNo.value));
          }
        }
        todo := todo - {sid};
      }
      if v.Some? {
        VictimIsUnique(manifests, sessions, v.value);
      }
    }

    /** Removes the manifest of `k`, and then notes in the session's record that it is pruned. */
    method RemoveStep(k: Key)
      requires Valid() && Evictable(manifests, k)
      modifies `manifests, `sessions, `disk, `trail, `floor
      ensures Valid() && old(trail) <= trail
      ensures manifests == old(manifests) - {k} && sessions == old(sessions)[k.0 := EvictedMeta(old(sessions), k)]
      ensures MetaOf(old(sessions), k.0).prunedThrough < k.1 && Exact(manifests, MetaOf(sessions, k.0), k.0)
      ensures old(NoneMissing(sessions, floor)) ==> NoneMissing(sessions, floor)
    {
      EvictionKeeps(manifests, sessions, blobs, tick, floor, disk, k);
      EvictionWrites(manifests, sessions, blobs, tick, floor, disk, k);
      Write(disk.(steps := disk.steps - {k}), LastsOf(sessions), Some(k));
      manifests := manifests - {k};
      var meta := MetaOf(sessions, k.0);
      meta := meta.(prunedThrough := if meta.prunedThrough < k.1 then k.1 else meta.prunedThrough);
      sessions := sessions[k.0 := meta];
      floor := floor[k.0 := k.1];
      SaneIsSafe(manifests, sessions, blobs, tick, floor, disk.(metas := disk.metas[k.0 := meta]));
      Write(disk.(metas := disk.metas[k.0 := meta]), LastsOf(sessions), None);
    }

    /** Evicts `k`: its manifest first, then the session record, then the blobs nothing needs. */
    method EvictStep(k: Key)
      requires Valid() && Evictable(manifests, k)
      modifies `manifests, `sessions, `blobs, `disk, `trail, `floor
      ensures Valid() && old(trail) <= trail
      ensures View() == Evict(old(View()), k)
      ensures Exact(manifests, MetaOf(sessions, k.0), k.0)
      ensures old(NoneMissing(sessions, floor)) ==> NoneMissing(sessions, floor)
      ensures old(InFlight(manifests, busy)) ==> InFlight(manifests, busy)
    {
      if InFlight(manifests, busy) {
        InFlightWithout(manifests, busy, k);
      }
      RemoveStep(k);
      Gc();
    }

    /** Evicts until `needed` more bytes fit. */
    method PruneToFit(needed: nat) returns (r: Result<(), Error>, ghost evicted: seq<Key>)
      requires Valid()
      modifies `manifests, `sessions, `blobs, `disk, `trail, `floor
      ensures Valid() && old(trail) <= trail
      ensures Justified(old(View()), evicted, needed, maxStoreBytes) && View() == EvictAll(old(View()), evicted)
      ensures r.Ok? ==> Total(blobs.Keys) + needed <= maxStoreBytes
      ensures r.Err? ==> r.error == StoreFull(needed, maxStoreBytes)
      ensures r.Err? ==> Total(blobs.Keys) + needed > maxStoreBytes && forall k :: !Evictable(manifests, k)
      ensures old(NoneMissing(sessions, floor)) ==> NoneMissing(sessions, floor)
      ensures old(InFlight(manifests, busy)) ==> InFlight(manifests, busy)
    {
      evicted := [];
      while true
        invariant Valid() && old(trail) <= trail
        invariant Justified(old(View()), evicted, needed, maxStoreBytes) && View() == EvictAll(old(View()), evicted)
        invariant old(NoneMissing(sessions, floor)) ==> NoneMissing(sessions, floor)
        invariant old(InFlight(manifests, busy)) ==> InFlight(manifests, busy)
        decreases |manifests|
      {
        var total := SumOfSizes();
        if total + needed <= maxStoreBytes {
          return Ok(()), evicted;
        }
        SessionsKnown(manifests, sessions, blobs, tick, floor, disk);
        var victim := PickVictim();
        if victim.None? {
          return Err(StoreFull(needed, maxStoreBytes)), evicted;
        }
        var k := victim.value;
        EvictOneMore(old(View()), evicted, k, needed, maxStoreBytes);
        ghost var before := manifests;
        EvictStep(k);
        evicted := evicted + [k];
        assert manifests.Keys == before.Keys - {k};
      }
    }

    // ----- Beginning a step ---------------------------------------------------------------------------------

    /** The first of these plans whose path has another step in flight. */
    method FirstBusy(plans: seq<Plan>) returns (r: Option<Path>)
      ensures r == FirstBusyOf(plans, busy)
    {
      for i := 0 to |plans|
        invariant FirstBusyOf(plans, busy) == FirstBusyOf(plans[i..], busy)
      {
        assert plans[i..][1..] == plans[i + 1..];
        if plans[i].res.abs in busy {
          return Some(plans[i].res.rel);
        }
      }
      return None;
    }

    /** The bytes of the snapshots that are not in the store yet. */
    method SumNeeded(entries: seq<Entry>) returns (needed: nat)
      requires SizesRight(entries)
      ensures needed == Total(FilesOf(entries) - blobs.Keys)
    {
      needed := 0;
      var newHexes: set<Hex> := {};
      assert entries[..0] == [];
      for i := 0 to |entries|
        invariant newHexes == FilesOf(entries[..i]) - blobs.Keys && needed == Total(newHexes)
      {
        assert entries[..i + 1][..i] == entries[..i];
        if entries[i].before.WasFile? {
          var h := entries[i].before.blob;
          if h !in blobs && h !in newHexes {
            TotalWith(newHexes, h);
            newHexes := newHexes + {h};
            needed := needed + entries[i].before.size;
          }
        }
      }
      assert entries[..|entries|] == entries;
    }

    /** Moves one staged snapshot into place; one that is already there stays. */
    method InstallBlob(h: Hex, size: nat)
      requires Valid() && size == |h.content|
      modifies `blobs, `disk, `trail
      ensures Valid() && old(trail) <= trail && blobs.Keys == old(blobs.Keys) + {h}
      ensures disk.steps == old(disk.steps) && disk.metas == old(disk.metas)
    {
      AddBlobKeeps(manifests, sessions, blobs, tick, floor, disk, h);
      if h !in disk.blobs {
        ghost var d := disk.(blobs := disk.blobs[h := h.content]);
        QuietWrite(manifests, sessions, blobs, tick, floor, disk, sessions, blobs[h := |h.content|], tick, floor, d);
        Write(disk.(blobs := disk.blobs[h := h.content]), LastsOf(sessions), None);
      }
      blobs := blobs[h := size];
    }

    method Install(entries: seq<Entry>)
      requires Valid() && SizesRight(entries)
      modifies `blobs, `disk, `trail
      ensures Valid() && old(trail) <= trail && blobs.Keys == old(blobs.Keys) + FilesOf(entries)
      ensures disk.steps == old(disk.steps) && disk.metas == old(disk.metas)
    {
      assert entries[..0] == [];
      for i := 0 to |entries|
        invariant Valid() && old(trail) <= trail && blobs.Keys == old(blobs.Keys) + FilesOf(entries[..i])
        invariant disk.steps == old(disk.steps) && disk.metas == old(disk.metas)
      {
        assert entries[..i + 1][..i] == entries[..i];
        if entries[i].before.WasFile? {
          InstallBlob(entries[i].before.blob, entries[i].before.size);
        }
      }
      assert entries[..|entries|] == entries;
    }

    /** Marks the session as the one used last. */
    method Touch(sid: SessionId)
      requires Valid()
      modifies `sessions, `tick, `disk, `trail, `floor
      ensures Valid() && old(trail) <= trail && tick == old(tick) + 1
      ensures sessions == old(sessions)[sid := MetaOf(old(sessions), sid).(lastUsed := tick)]
      ensures UsedNext(old(sessions), sessions, sid)
      ensures disk == old(disk).(metas := old(disk).metas[sid := sessions[sid]])
      ensures old(NoneMissing(sessions, floor)) ==> NoneMissing(sessions, floor)
    {
      TouchKeeps(manifests, sessions, blobs, tick, floor, disk, sid);
      TouchIsUse(manifests, sessions, blobs, tick, floor, disk, sid);
      ghost var metas0, tick0, floor0 := sessions, tick, floor;
      floor := floor[sid := FloorOf(floor, sid)];
      tick := tick + 1;
      var meta := MetaOf(sessions, sid).(lastUsed := tick);
      sessions := sessions[sid := meta];
      QuietWrite(manifests, metas0, blobs, tick0, floor0, disk,
                 sessions, blobs, tick, floor, disk.(metas := disk.metas[sid := meta]));
      Write(disk.(metas := disk.metas[sid := meta]), LastsOf(sessions), None);
    }

    /** Gives the step its number, writes its manifest and takes its paths. */
    method Record(sid: SessionId, root: Path, entries: seq<Entry>, plans: seq<Plan>, createdDirs: seq<Path>)
      returns (seqNo: nat)
      requires Valid() && FilesOf(entries) <= blobs.Keys && createdDirs == ByDepth(DirsOf(plans))
      requires forall n :: ManifestOf(sid, n, root, entries, plans).Sound()
      requires forall n :: ManifestOf(sid, n, root, entries, plans).Paths() == AbsOf(plans)
      requires AbsOf(plans) !! busy
      modifies `manifests, `sessions, `busy, `disk, `trail, `floor
      ensures Valid() && old(trail) <= trail
      ensures seqNo == MetaOf(old(sessions), sid).lastSeq + 1 && (sid, seqNo) !in old(manifests)
      ensures manifests == old(manifests)[(sid, seqNo) := ManifestOf(sid, seqNo, root, entries, plans)]
      ensures sessions == old(sessions)[sid := NextMeta(old(sessions), sid)]
      ensures busy == old(busy) + AbsOf(plans)
      ensures old(NoneMissing(sessions, floor)) ==> NoneMissing(sessions, floor)
      ensures old(InFlight(manifests, busy)) ==> InFlight(manifests, busy)
    {
      var meta := NextMeta(sessions, sid);
      seqNo := meta.lastSeq;
      var m := Manifest(sid, seqNo, root, Prepared, entries, createdDirs);
      assert m == ManifestOf(sid, seqNo, root, entries, plans);
      RecordKeeps(manifests, sessions, blobs, tick, floor, disk, m);
      RecordWrite(manifests, sessions, blobs, tick, floor, disk, m);
      if InFlight(manifests, busy) {
        InFlightWith(manifests, busy, (sid, seqNo), m);
      }
      sessions := sessions[sid := meta];
      floor := floor[sid := FloorOf(floor, sid)];
      SaneIsSafe(manifests[(sid, seqNo) := m], sessions, blobs, tick, floor, disk.(steps := disk.steps[(sid, seqNo) := m]));
      Write(disk.(steps := disk.steps[(sid, seqNo) := m]), LastsOf(sessions), None);
      busy := busy + AbsOf(plans);
      manifests := manifests[(sid, seqNo) := m];
    }

    /** Everything that can refuse a step before the store is touched. */
    method Screen(fs: Tree, root: Path, rootGiven: seq<Component>, changes: seq<Change>)
      returns (r: Result<(seq<Plan>, seq<Entry>), Error>)
      requires Wf(fs)
      ensures r == Screened(fs, root, rootGiven, changes, busy, maxFileBytes)
    {
      if !(root in fs && fs[root] == Dir) {
        return Err(PathRefused);
      }
      var plans :- MakePlans(fs, root, rootGiven, changes);
      var once := CheckEachOnce(plans);
      if !once {
        return Err(PathRefused);
      }
      var taken := FirstBusy(plans);
      if taken.Some? {
        return Err(Error.Busy(taken.value));
      }
      var entries :- Snapshot(fs, plans, maxFileBytes);
      return Ok((plans, entries));
    }

    /** Makes room for a step that nothing refuses, stores its snapshots and records it. */
    method StoreStep(sid: SessionId, root: Path, plans: seq<Plan>, entries: seq<Entry>)
      returns (r: Result<nat, Error>, ghost evicted: seq<Key>)
      requires Valid() && SizesRight(entries) && AbsOf(plans) !! busy
      requires forall n :: ManifestOf(sid, n, root, entries, plans).Sound()
      requires forall n :: ManifestOf(sid, n, root, entries, plans).Paths() == AbsOf(plans)
      modifies this
      ensures Valid() && old(trail) <= trail
      ensures old(NoneMissing(sessions, floor)) ==> NoneMissing(sessions, floor)
      ensures old(InFlight(manifests, busy)) ==> InFlight(manifests, busy)
      ensures Stored(sid, root, plans, entries, maxStoreBytes, old(View()), old(busy), r, evicted, View(), busy)
      ensures r.Err? ==> tick == old(tick)
      ensures if r.Ok? then UsedNext(old(sessions), sessions, sid) else SameUses(old(sessions), sessions)
    {
      evicted := [];
      var needed := SumNeeded(entries);
      if needed > maxStoreBytes {
        return Err(StepTooLarge(needed, maxStoreBytes)), evicted;
      }
      var pruned;
      pruned, evicted := PruneToFit(needed);
      EvictionsAreNoUse(old(View()), evicted);
      if pruned.Err? {
        return Err(pruned.error), evicted;
      }
      var seqNo := StoreAndRecord(sid, root, plans, entries);
      StoredNow(sid, root, plans, entries, maxStoreBytes, old(View()), old(busy), evicted, needed, seqNo, tick, View(), busy);
      return Ok(seqNo), evicted;
    }

    /** The writes of a step that fits. */
    method StoreAndRecord(sid: SessionId, root: Path, plans: seq<Plan>, entries: seq<Entry>) returns (seqNo: nat)
      requires Valid() && SizesRight(entries) && AbsOf(plans) !! busy
      requires forall n :: ManifestOf(sid, n, root, entries, plans).Sound()
      requires forall n :: ManifestOf(sid, n, root, entries, plans).Paths() == AbsOf(plans)
      modifies this
      ensures Valid() && old(trail) <= trail
      ensures old(NoneMissing(sessions, floor)) ==> NoneMissing(sessions, floor)
      ensures old(InFlight(manifests, busy)) ==> InFlight(manifests, busy)
      ensures seqNo == NextMeta(old(sessions), sid).lastSeq && (sid, seqNo) !in old(manifests)
      ensures manifests == old(manifests)[(sid, seqNo) := ManifestOf(sid, seqNo, root, entries, plans)]
      ensures sessions == old(sessions)[sid := NextMeta(old(sessions), sid).(lastUsed := tick)]
      ensures UsedNext(old(sessions), sessions, sid)
      ensures blobs.Keys == old(blobs.Keys) + FilesOf(entries) && busy == old(busy) + AbsOf(plans)
    {
      Install(entries);
      var dirs := CollectDirs(plans);
      seqNo := Record(sid, root, entries, plans, ByDepth(dirs));
      assert SameUses(old(sessions), sessions);
      Touch(sid);
    }

    /** Snapshots every path the changes will touch and records a prepared step. `root` is what the
        granted folder's path resolves to. */
    method BeginStep(fs: Tree, sid: SessionId, root: Path, rootGiven: seq<Component>, changes: seq<Change>)
      returns (r: Result<nat, Error>, ghost evicted: seq<Key>)
      requires Valid() && Wf(fs)
      modifies this
      ensures Valid() && old(trail) <= trail
      ensures old(NoneMissing(sessions, floor)) ==> NoneMissing(sessions, floor)
      ensures old(InFlight(manifests, busy)) ==> InFlight(manifests, busy)
      ensures Begun(fs, sid, root, rootGiven, changes, maxStoreBytes, maxFileBytes, old(View()), old(busy),
                    r, evicted, View(), busy)
      ensures r.Err? ==> tick == old(tick)
      ensures if r.Ok? then UsedNext(old(sessions), sessions, sid) else SameUses(old(sessions), sessions)
    {
      var screened := Screen(fs, root, rootGiven, changes);
      if screened.Err? {
        return Err(screened.error), [];
      }
      var (plans, entries) := screened.value;
      ScreenedMeans(fs, root, rootGiven, changes, busy, maxFileBytes);
      forall n ensures ManifestOf(sid, n, root, entries, plans).Sound()
               ensures ManifestOf(sid, n, root, entries, plans).Paths() == AbsOf(plans) {
        ScreenedManifest(fs, sid, n, root, entries, plans, maxFileBytes);
      }
      r, evicted := StoreStep(sid, root, plans, entries);
    }

    /** Writes a step again, in a later status. */
    method Rewrite(k: Key, m: Manifest)
      requires Valid() && k in manifests && SameStep(manifests[k], m)
      modifies `manifests, `disk, `trail
      ensures Valid() && old(trail) <= trail && manifests == old(manifests)[k := m]
    {
      ghost var d := disk.(steps := disk.steps[k := m]);
      RestatusKeeps(manifests, sessions, blobs, tick, floor, disk, k, m);
      RestatusWrite(manifests, sessions, blobs, tick, floor, disk, k, m);
      SaneIsSafe(manifests[k := m], sessions, blobs, tick, floor, d);
      Write(disk.(steps := disk.steps[k := m]), LastsOf(sessions), None);
      manifests := manifests[k := m];
    }

    // ----- Finishing a step ---------------------------------------------------------------------------------

    /** Records what each path holds now, or that the change did not happen, and frees the paths. `now` is
        what looking at a path reports at that moment. */
    method Finish(k: Key, commit: bool, now: Path -> Result<Fingerprint, Error>) returns (r: Result<StepStatus, Error>)
      requires Valid()
      modifies this
      ensures Valid() && old(trail) <= trail
      ensures old(NoneMissing(sessions, floor)) ==> NoneMissing(sessions, floor)
      ensures blobs == old(blobs)
      ensures !(k in old(manifests) && old(manifests)[k].status == Prepared) ==>
                && manifests == old(manifests) && busy == old(busy) && tick == old(tick)
                && r == if k in old(manifests) then Ok(old(manifests)[k].status) else Err(NotFound)
      ensures k in old(manifests) && old(manifests)[k].status == Prepared ==>
                && busy == old(busy) - old(manifests)[k].Paths()
                && match FinishedStep(old(manifests)[k], commit, now)
                   case Err(e) => r == Err(e) && manifests == old(manifests)
                   case Ok(done) => r == Ok(done.status) && manifests == old(manifests)[k := done]
      ensures old(InFlight(manifests, busy)) && r.Ok? ==> InFlight(manifests, busy)
      ensures if r.Ok? && old(manifests)[k].status == Prepared then UsedNext(old(sessions), sessions, k.0)
              else sessions == old(sessions)
    {
      if k !in manifests {
        return Err(NotFound);
      }
      var m := manifests[k];
      if m.status != Prepared {
        return Ok(m.status);
      }
      var after := if commit then AfterOf(m.root, m.entries, now) else Ok(m.entries);
      if after.Err? {
        busy := busy - m.Paths();
        return Err(after.error);
      }
      var done := m.(entries := after.value, status := if commit then Committed else Interrupted);
      FinishedIsSame(m, commit, now);
      if InFlight(manifests, busy) {
        InFlightFinished(manifests, busy, k, done);
      }
      Rewrite(k, done);
      busy := busy - m.Paths();
      Touch(k.0);
      return Ok(done.status);
    }

    /** Committing a step: when that fails, dropping the step interrupts it. */
    method Commit(k: Key, now: Path -> Result<Fingerprint, Error>) returns (r: Result<StepStatus, Error>)
      requires Valid()
      modifies this
      ensures Valid() && old(trail) <= trail
      ensures old(InFlight(manifests, busy)) ==> InFlight(manifests, busy)
      ensures k in old(manifests) && old(manifests)[k].status == Prepared ==>
                && busy == old(busy) - old(manifests)[k].Paths()
                && match FinishedStep(old(manifests)[k], true, now)
                   case Err(e) => r == Err(e) && manifests == old(manifests)[k := old(manifests)[k].(status := Interrupted)]
                   case Ok(done) => r == Ok(Committed) && manifests == old(manifests)[k := done]
      ensures k in old(manifests) && old(manifests)[k].status == Prepared ==> UsedNext(old(sessions), sessions, k.0)
    {
      ghost var steps0, busy0 := manifests, busy;
      r := Finish(k, true, now);
      if r.Err? {
        if k in steps0 {
          assert busy0 - steps0[k].Paths() - steps0[k].Paths() == busy0 - steps0[k].Paths();
          if InFlight(steps0, busy0) {
            InFlightFinished(steps0, busy0, k, steps0[k].(status := Interrupted));
          }
        }
        var dropped := Finish(k, false, now);
      }
    }

    // ----- Undoing -------------------------------------------------------------------------------------------

    /** Writes that a step is undone. */
    method MarkUndone(k: Key)
      requires Valid() && k in manifests && manifests[k].status != Prepared
      modifies `manifests, `disk, `trail
      ensures Valid() && old(trail) <= trail
      ensures manifests == old(manifests)[k := old(manifests)[k].(status := Undone)]
      ensures old(InFlight(manifests, busy)) ==> InFlight(manifests, busy)
    {
      var done := manifests[k].(status := Undone);
      if InFlight(manifests, busy) {
        InFlightRestatus(manifests, busy, k, done);
      }
      Rewrite(k, done);
    }

    /** Restores the `k`-th of these steps and marks it. */
    method UndoNext(ghost fs: Tree, g0: Tree, seen: BlobStore, sid: SessionId, ms: seq<Manifest>, k: nat,
                    ghost steps0: StepMap, report: UndoReport)
      returns (r: Result<UndoReport, Error>, g: Tree)
      requires Valid() && OnRecord(steps0, sid, ms) && forall i :: 0 <= i < |ms| ==> ms[i].session == sid
      requires k < |ms| && Restored(fs, seen, ms, k, g0) && StepBlobsVerify(seen, ms[k])
      requires manifests == Marked(steps0, ms[..k]) && report == ReportOf(ms[..k])
      modifies `manifests, `disk, `trail
      ensures Valid() && old(trail) <= trail
      ensures old(InFlight(manifests, busy)) ==> InFlight(manifests, busy)
      ensures r.Ok? ==>
                Restored(fs, seen, ms, k + 1, g) && manifests == Marked(steps0, ms[..k + 1]) && r.value == ReportOf(ms[..k + 1])
      ensures r.Err? ==>
                && Perform(fs, seen, Actions(ms)) == Err(r.error) && g == GetsTo(fs, seen, Actions(ms))
                && StepsDone(fs, seen, ms) == k && manifests == old(manifests)
    {
      assert ms[..k + 1][..k] == ms[..k];
      MarkedElsewhere(steps0, sid, ms, k);
      OneStepMore(fs, seen, ms, k, g0);
      var restored;
      restored, g := UndoOne(g0, seen, ms[k]);
      if restored.Err? {
        return Err(restored.error), g;
      }
      MarkUndone((sid, ms[k].seqNo));
      return Ok(UndoReport(report.steps + [ms[k].seqNo], report.restored + PathsOf(ms[k]), None)), g;
    }

    /** Restores these steps in this order. `g` is the tree it leaves. */
    method RunUndo(fs: Tree, seen: BlobStore, sid: SessionId, ms: seq<Manifest>)
      returns (r: Result<UndoReport, Error>, g: Tree)
      requires Valid() && OnRecord(manifests, sid, ms) && forall i :: 0 <= i < |ms| ==> ms[i].session == sid
      requires forall i :: 0 <= i < |ms| ==> StepBlobsVerify(seen, ms[i])
      modifies `manifests, `disk, `trail
      ensures Valid() && old(trail) <= trail
      ensures old(InFlight(manifests, busy)) ==> InFlight(manifests, busy)
      ensures Perform(fs, seen, Actions(ms)) == if r.Ok? then Ok(g) else Err(r.error)
      ensures g == GetsTo(fs, seen, Actions(ms))
      ensures manifests == Marked(old(manifests), ms[..StepsDone(fs, seen, ms)])
      ensures r.Ok? ==> r.value == ReportOf(ms) && manifests == Marked(old(manifests), ms)
    {
      ghost var steps0 := manifests;
      g := fs;
      r := Ok(UndoReport([], [], None));
      RestoredEnds(fs, seen, ms, fs);
      assert ms[..0] == [];
      for k := 0 to |ms|
        invariant Valid() && old(trail) <= trail && Restored(fs, seen, ms, k, g)
        invariant manifests == Marked(steps0, ms[..k]) && r == Ok(ReportOf(ms[..k]))
        invariant old(InFlight(manifests, busy)) ==> InFlight(manifests, busy)
      {
        r, g := UndoNext(fs, g, seen, sid, ms, k, steps0, r.value);
        if r.Err? {
          return;
        }
      }
      RestoredEnds(fs, seen, ms, g);
      assert ms[..|ms|] == ms;
    }

    /** Undoes these steps in this order, after checking them as a whole. */
    method UndoMany(fs: Tree, seen: BlobStore, sid: SessionId, ms: seq<Manifest>)
      returns (r: Result<UndoReport, Error>, g: Tree)
      requires Valid() && Wf(fs) && OnRecord(manifests, sid, ms)
      modifies this
      ensures Valid() && old(trail) <= trail && busy == old(busy) && blobs == old(blobs)
      ensures old(NoneMissing(sessions, floor)) ==> NoneMissing(sessions, floor)
      ensures old(InFlight(manifests, busy)) ==> InFlight(manifests, busy)
      ensures r.Ok? <==> Passes(fs, seen, busy, ms) && Perform(fs, seen, Actions(ms)).Ok?
      ensures r.Ok? ==> CheckedUndo(fs, seen, Actions(ms)) == Ok(g)
      ensures r.Ok? ==> r.value == ReportOf(ms) && manifests == Marked(old(manifests), ms)
      ensures !Passes(fs, seen, busy, ms) ==> g == fs && manifests == old(manifests)
      ensures Passes(fs, seen, busy, ms) ==>
                g == GetsTo(fs, seen, Actions(ms)) && manifests == Marked(old(manifests), ms[..StepsDone(fs, seen, ms)])
      ensures if r.Ok? then UsedNext(old(sessions), sessions, sid) else sessions == old(sessions)
    {
      StepsOnRecordAreSound(manifests, sessions, blobs, tick, floor, disk, sid, ms);
      var checked := CheckAll(fs, seen, busy, ms);
      if checked.Err? {
        return Err(checked.error), fs;
      }
      r, g := RunUndo(fs, seen, sid, ms);
      if r.Ok? {
        Touch(sid);
      }
    }

    /** Why a step is not on record. */
    method Missing(sid: SessionId, seqNo: nat) returns (e: Error)
      ensures e == if 0 < seqNo <= MetaOf(sessions, sid).prunedThrough then Pruned else NotFound
    {
      var pruned := sid in sessions && seqNo > 0 && seqNo <= sessions[sid].prunedThrough;
      return if pruned then Pruned else NotFound;
    }

    /** Undoes one step. */
    method UndoStep(fs: Tree, seen: BlobStore, sid: SessionId, seqNo: nat) returns (r: Result<UndoReport, Error>, g: Tree)
      requires Valid() && Wf(fs)
      modifies this
      ensures Valid() && old(trail) <= trail && busy == old(busy) && blobs == old(blobs)
      ensures old(NoneMissing(sessions, floor)) ==> NoneMissing(sessions, floor)
      ensures old(InFlight(manifests, busy)) ==> InFlight(manifests, busy)
      ensures var k := (sid, seqNo);
              if k !in old(manifests) then
                && r == Err(if 0 < seqNo <= MetaOf(old(sessions), sid).prunedThrough then Pruned else NotFound)
                && g == fs && manifests == old(manifests)
              else
                var m := old(manifests)[k];
                && (r.Ok? <==>
                      && (m.status == Committed || m.status == Interrupted)
                      && Passes(fs, seen, busy, [m]) && Perform(fs, seen, StepActions(m)).Ok?)
                && (r.Ok? ==> CheckedUndo(fs, seen, StepActions(m)) == Ok(g))
                && (r.Ok? ==> manifests == old(manifests)[k := m.(status := Undone)])
                && (m.status == Undone ==> r == Err(AlreadyUndone))
                && (m.status == Prepared ==> r.Err? && r.error.Busy?)
                && (m.status == Undone || m.status == Prepared || !Passes(fs, seen, busy, [m]) ==> g == fs)
                && (r.Err? ==> manifests == old(manifests))
                && (m.status != Undone && m.status != Prepared && Passes(fs, seen, busy, [m]) ==>
                      g == GetsTo(fs, seen, StepActions(m)))
      ensures if r.Ok? then UsedNext(old(sessions), sessions, sid) else sessions == old(sessions)
    {
      g := fs;
      if (sid, seqNo) !in manifests {
        var e := Missing(sid, seqNo);
        return Err(e), g;
      }
      var m := manifests[(sid, seqNo)];
      OneStepAlone(manifests, sessions, blobs, tick, floor, disk, (sid, seqNo));
      match m.status
      case Undone => return Err(AlreadyUndone), g;
      case Prepared => return Err(Error.Busy(FirstPath(m))), g;
      case _ => r, g := UndoMany(fs, seen, sid, [m]);
    }

    /** Undoes every step of the session that is not undone yet, newest first. */
    method UndoSession(fs: Tree, seen: BlobStore, sid: SessionId) returns (r: Result<UndoReport, Error>, g: Tree)
      requires Valid() && Wf(fs)
      modifies this
      ensures Valid() && old(trail) <= trail && busy == old(busy) && blobs == old(blobs)
      ensures old(NoneMissing(sessions, floor)) ==> NoneMissing(sessions, floor)
      ensures old(InFlight(manifests, busy)) ==> InFlight(manifests, busy)
      ensures var ms := NewestFirst(old(manifests), sid, MetaOf(old(sessions), sid).lastSeq);
              && (r.Ok? <==>
                    && (forall i :: 0 <= i < |ms| ==> ms[i].status != Prepared)
                    && Passes(fs, seen, busy, ms) && Perform(fs, seen, Actions(ms)).Ok?)
              && (r.Ok? ==> CheckedUndo(fs, seen, Actions(ms)) == Ok(g) && manifests == Marked(old(manifests), ms))
              && (r.Ok? ==> r.value.steps == ReportOf(ms).steps && r.value.restored == ReportOf(ms).restored)
              && (r.Ok? ==> r.value.prunedThrough == (var n := MetaOf(old(sessions), sid).prunedThrough; if n == 0 then None else Some(n)))
              && (if (forall i :: 0 <= i < |ms| ==> ms[i].status != Prepared) && Passes(fs, seen, busy, ms) then
                    && g == GetsTo(fs, seen, Actions(ms))
                    && manifests == Marked(old(manifests), ms[..StepsDone(fs, seen, ms)])
                  else g == fs && manifests == old(manifests))
      ensures if r.Ok? && NewestFirst(old(manifests), sid, MetaOf(old(sessions), sid).lastSeq) != [] then
                UsedNext(old(sessions), sessions, sid)
              else sessions == old(sessions)
    {
      g := fs;
      var lastSeq := MetaOf(sessions, sid).lastSeq;
      var steps := NewestFirst(manifests, sid, lastSeq);
      for i := 0 to |steps|
        invariant forall j :: 0 <= j < i ==> steps[j].status != Prepared
      {
        if steps[i].status == Prepared {
          return Err(Error.Busy(FirstPath(steps[i]))), g;
        }
      }
      SessionOnRecord(manifests, sessions, blobs, tick, floor, disk, sid, lastSeq);
      var pruned := MetaOf(sessions, sid).prunedThrough;
      var report := UndoReport([], [], None);
      if steps != [] {
        r, g := UndoMany(fs, seen, sid, steps);
        if r.Err? {
          return;
        }
        report := r.value;
      }
      r := Ok(report.(prunedThrough := PrunedPart(pruned)));
    }
  }

  /** The plans and prior states of a step, or why it is refused. */
  function Screened(
      fs: Tree, root: Path, rootGiven: seq<Component>, changes: seq<Change>, busy: set<Path>, maxFileBytes: nat)
    : (r: Result<(seq<Plan>, seq<Entry>), Error>)
  {
    if !(root in fs && fs[root] == Dir) then Err(PathRefused) else
      var plans :- PlansOf(fs, root, rootGiven, changes);
      if !ListsEachOnce(plans) then Err(PathRefused) else
        match FirstBusyOf(plans, busy)
        case Some(rel) => Err(Error.Busy(rel))
        case None =>
          var entries :- EntriesOf(fs, plans, maxFileBytes);
          Ok((plans, entries))
  }

  lemma {:induction false} NoneBusy(plans: seq<Plan>, busy: set<Path>)
    ensures FirstBusyOf(plans, busy).None? <==> AbsOf(plans) !! busy
    decreases |plans|
  {
    if plans != [] {
      NoneBusy(plans[1..], busy);
      assert plans == [plans[0]] + plans[1..];
      assert plans[0].res.abs in AbsOf(plans);
      assert AbsOf(plans) == {plans[0].res.abs} + AbsOf(plans[1..]) by {
        forall p ensures p in AbsOf(plans) <==> p == plans[0].res.abs || p in AbsOf(plans[1..]) {
          if i :| 0 <= i < |plans| && plans[i].res.abs == p {
            if i > 0 {
              assert plans[1..][i - 1].res.abs == p;
            }
          }
        }
      }
    }
  }

  lemma ScreenedMeans(
      fs: Tree, root: Path, rootGiven: seq<Component>, changes: seq<Change>, busy: set<Path>, maxFileBytes: nat)
    requires Wf(fs) && Screened(fs, root, rootGiven, changes, busy, maxFileBytes).Ok?
    ensures var p := Screened(fs, root, rootGiven, changes, busy, maxFileBytes).value;
            && Planned(fs, root, p.0, p.1, maxFileBytes) && SizesRight(p.1) && AbsOf(p.0) !! busy
            && root in fs && fs[root] == Dir
  {
    var p := Screened(fs, root, rootGiven, changes, busy, maxFileBytes).value;
    PlansAreWellPlanned(fs, root, rootGiven, changes);
    NoneBusy(p.0, busy);
    EntriesAre(fs, p.0, maxFileBytes);
    forall i | 0 <= i < |p.1| && p.1[i].before.WasFile? ensures p.1[i].before.size == |p.1[i].before.blob.content| {
      assert CaptureOf(fs, p.0[i], maxFileBytes) == Ok(p.1[i].before);
    }
  }

  lemma ScreenedManifest(
      fs: Tree, sid: SessionId, n: nat, root: Path, entries: seq<Entry>, plans: seq<Plan>, maxFileBytes: nat)
    requires Planned(fs, root, plans, entries, maxFileBytes)
    ensures ManifestOf(sid, n, root, entries, plans).Sound()
    ensures ManifestOf(sid, n, root, entries, plans).Paths() == AbsOf(plans)
    ensures Captured(fs, ManifestOf(sid, n, root, entries, plans))
  {
    ManifestIsSound(fs, sid, n, root, plans, entries, maxFileBytes);
    ManifestCaptures(fs, sid, n, root, plans, entries, maxFileBytes);
    EntriesAre(fs, plans, maxFileBytes);
    var m := ManifestOf(sid, n, root, entries, plans);
    forall p ensures p in m.Paths() <==> p in AbsOf(plans) {
      forall i | 0 <= i < |plans| ensures root + entries[i].path == plans[i].res.abs {
        EntryAt(fs, root, plans, entries, maxFileBytes, i);
      }
      if i :| 0 <= i < |plans| && plans[i].res.abs == p {
        assert root + m.entries[i].path == p;
      }
      if i :| 0 <= i < |m.entries| && root + m.entries[i].path == p {
        assert plans[i].res.abs == p;
      }
    }
  }

  /** What `begin_step` answers and does, from what it found. */
  ghost predicate Begun(
      fs: Tree, sid: SessionId, root: Path, rootGiven: seq<Component>, changes: seq<Change>,
      maxStoreBytes: nat, maxFileBytes: nat, before: Kept, busyBefore: set<Path>,
      r: Result<nat, Error>, evicted: seq<Key>, after: Kept, busyAfter: set<Path>)
  {
    match Screened(fs, root, rootGiven, changes, busyBefore, maxFileBytes)
    case Err(e) => r == Err(e) && evicted == [] && after == before && busyAfter == busyBefore
    case Ok((plans, entries)) =>
      Stored(sid, root, plans, entries, maxStoreBytes, before, busyBefore, r, evicted, after, busyAfter)
  }

  lemma {:induction false} EvictionsAreNoUse(c: Kept, ks: seq<Key>)
    ensures SameUses(c.metas, EvictAll(c, ks).metas)
    decreases |ks|
  {
    if ks != [] {
      EvictionsAreNoUse(Evict(c, ks[0]), ks[1..]);
      assert SameUses(c.metas, Evict(c, ks[0]).metas);
    }
  }

  /** What becomes of a step that nothing refuses: too large, no room for it, or recorded. */
  ghost predicate Stored(
      sid: SessionId, root: Path, plans: seq<Plan>, entries: seq<Entry>, maxStoreBytes: nat,
      before: Kept, busyBefore: set<Path>, r: Result<nat, Error>, evicted: seq<Key>, after: Kept, busyAfter: set<Path>)
  {
    var needed := Total(FilesOf(entries) - before.blobs);
    var kept := EvictAll(before, evicted);
    if needed > maxStoreBytes then
      r == Err(StepTooLarge(needed, maxStoreBytes)) && evicted == [] && after == before && busyAfter == busyBefore
    else
      && Justified(before, evicted, needed, maxStoreBytes)
      && if Total(kept.blobs) + needed > maxStoreBytes then
           && r == Err(StoreFull(needed, maxStoreBytes)) && after == kept && busyAfter == busyBefore
           && forall k :: !Evictable(kept.steps, k)
         else
           && r == Ok(NextMeta(kept.metas, sid).lastSeq)
           && (sid, r.value) !in kept.steps
           && after.steps == kept.steps[(sid, r.value) := ManifestOf(sid, r.value, root, entries, plans)]
           && after.blobs == kept.blobs + FilesOf(entries)
           && (forall s :: s in after.metas <==> s in kept.metas || s == sid)
           && (forall s :: s in kept.metas && s != sid ==> after.metas[s] == kept.metas[s])
           && after.metas[sid].lastSeq == r.value
           && after.metas[sid].prunedThrough == MetaOf(kept.metas, sid).prunedThrough
           && busyAfter == busyBefore + AbsOf(plans) && AbsOf(plans) !! busyBefore
  }

  /** Recording the step and then the time of use is what a stored step leaves behind. */
  lemma StoredNow(
      sid: SessionId, root: Path, plans: seq<Plan>, entries: seq<Entry>, maxStoreBytes: nat,
      before: Kept, busyBefore: set<Path>, evicted: seq<Key>, needed: nat, n: nat, tick: nat, after: Kept,
      busyAfter: set<Path>)
    requires needed == Total(FilesOf(entries) - before.blobs) <= maxStoreBytes
    requires Justified(before, evicted, needed, maxStoreBytes)
    requires Total(EvictAll(before, evicted).blobs) + needed <= maxStoreBytes
    requires var kept := EvictAll(before, evicted);
             && n == NextMeta(kept.metas, sid).lastSeq && (sid, n) !in kept.steps
             && after.steps == kept.steps[(sid, n) := ManifestOf(sid, n, root, entries, plans)]
             && after.blobs == kept.blobs + FilesOf(entries)
             && after.metas == kept.metas[sid := NextMeta(kept.metas, sid).(lastUsed := tick)]
    requires busyAfter == busyBefore + AbsOf(plans) && AbsOf(plans) !! busyBefore
    ensures Stored(sid, root, plans, entries, maxStoreBytes, before, busyBefore, Ok(n), evicted, after, busyAfter)
  {
  }

  /** The first of these plans whose path is in `busy`. */
  function FirstBusyOf(plans: seq<Plan>, busy: set<Path>): (r: Option<Path>) {
    if plans == [] then None
    else if plans[0].res.abs in busy then Some(plans[0].res.rel)
    else FirstBusyOf(plans[1..], busy)
  }

  function AbsOf(plans: seq<Plan>): (ps: set<Path>) {
    set i | 0 <= i < |plans| :: plans[i].res.abs
  }

  /** Snapshots are as long as the record says. */
  predicate SizesRight(entries: seq<Entry>) {
    forall i :: 0 <= i < |entries| && entries[i].before.WasFile? ==> entries[i].before.size == |entries[i].before.blob.content|
  }

  // ----- Finishing, as values --------------------------------------------------------------------------------

  function AfterOf(root: Path, entries: seq<Entry>, now: Path -> Result<Fingerprint, Error>): (r: Result<seq<Entry>, Error>) {
    if entries == [] then Ok([]) else
      var n := |entries| - 1;
      var es :- AfterOf(root, entries[..n], now);
      var f :- now(root + entries[n].path);
      Ok(es + [entries[n].(after := Some(f))])
  }

  function FinishedStep(m: Manifest, commit: bool, now: Path -> Result<Fingerprint, Error>): (r: Result<Manifest, Error>) {
    if !commit then Ok(m.(status := Interrupted)) else
      var es :- AfterOf(m.root, m.entries, now);
      Ok(m.(entries := es, status := Committed))
  }

  /** A commit records, entry by entry, what its path holds. */
  lemma {:induction false} AfterIsRecorded(root: Path, entries: seq<Entry>, now: Path -> Result<Fingerprint, Error>)
    requires AfterOf(root, entries, now).Ok?
    ensures var es := AfterOf(root, entries, now).value;
            && |es| == |entries|
            && forall i :: 0 <= i < |es| ==>
                 es[i] == entries[i].(after := es[i].after) && es[i].after.Some? && now(root + es[i].path) == Ok(es[i].Post())
    decreases |entries|
  {
    if entries != [] {
      AfterIsRecorded(root, entries[..|entries| - 1], now);
    }
  }

  lemma FinishedIsSame(m: Manifest, commit: bool, now: Path -> Result<Fingerprint, Error>)
    requires FinishedStep(m, commit, now).Ok?
    ensures SameStep(m, FinishedStep(m, commit, now).value)
    ensures FinishedStep(m, commit, now).value.status != Prepared
  {
    if commit {
      AfterIsRecorded(m.root, m.entries, now);
    }
  }

  lemma InFlightElsewhere(steps: StepMap, busy: set<Path>, k: Key, m: Manifest)
    requires k in steps && m.status != Prepared
    ensures InFlightParts(steps[k := m], busy) <==> InFlightParts(steps - {k}, busy)
  {
    var a, b := steps[k := m], steps - {k};
    assert forall j :: j in a && a[j].status == Prepared <==> j in b && b[j].status == Prepared;
    assert forall j :: j in b ==> a[j] == b[j];
  }

  /** Between a commit that failed and the drop of its step, the paths of the step are free although it is
      still prepared. If in the meantime other steps are in flight on `busy`, the drop leaves their paths
      guarded exactly when none of them took one of those paths. */
  lemma DropAfterFailedCommit(steps: StepMap, busy: set<Path>, k: Key, m: Manifest)
    requires k in steps && m.status != Prepared && InFlight(steps - {k}, busy)
    ensures InFlight(steps[k := m], busy - steps[k].Paths()) <==> steps[k].Paths() !! busy
  {
    var rest, paths := steps - {k}, steps[k].Paths();
    LookInsideFlight(rest, busy);
    InFlightElsewhere(steps, busy - paths, k, m);
    if paths !! busy {
      assert busy - paths == busy;
    } else {
      var p :| p in paths && p in busy;
      var j :| j in rest && rest[j].status == Prepared && p in rest[j].Paths();
      assert !InFlightParts(rest, busy - paths);
      if InFlight(steps[k := m], busy - paths) {
        LookInsideFlight(steps[k := m], busy - paths);
      }
    }
  }

  // ----- Undoing, as values ------------------------------------------------------------------------------------

  /** What an undo did: the steps undone, the paths restored, and how far the session was pruned. */
  datatype UndoReport = UndoReport(steps: seq<nat>, restored: seq<Path>, prunedThrough: Option<nat>)

  function PrunedPart(n: nat): (r: Option<nat>) {
    if n > 0 then Some(n) else None
  }

  function PathsOf(m: Manifest): (ps: seq<Path>) {
    seq(|m.entries|, i requires 0 <= i < |m.entries| => m.entries[i].path)
  }

  function FirstPath(m: Manifest): (p: Path) {
    if m.entries == [] then [] else m.entries[0].path
  }

  function ReportOf(ms: seq<Manifest>): (r: UndoReport) {
    if ms == [] then UndoReport([], [], None) else
      var r, last := ReportOf(ms[..|ms| - 1]), ms[|ms| - 1];
      UndoReport(r.steps + [last.seqNo], r.restored + PathsOf(last), None)
  }

  /** These steps of one session are on record and can be undone. */
  ghost predicate OnRecord(steps: StepMap, sid: SessionId, ms: seq<Manifest>) {
    && (forall i :: 0 <= i < |ms| ==> StepOnRecord(steps, sid, ms[i]))
    && (forall i, j :: 0 <= i < j < |ms| ==> ms[i].seqNo != ms[j].seqNo)
  }

  predicate StepOnRecord(steps: StepMap, sid: SessionId, m: Manifest) {
    (sid, m.seqNo) in steps && steps[(sid, m.seqNo)] == m && (m.status == Committed || m.status == Interrupted)
  }

  lemma StepsOnRecordAreSound(
      steps: StepMap, metas: MetaMap, blobs: map<Hex, nat>, tick: nat, floor: map<SessionId, nat>, disk: Disk,
      sid: SessionId, ms: seq<Manifest>)
    requires Sane(steps, metas, blobs, tick, floor, disk) && OnRecord(steps, sid, ms)
    ensures SoundSteps(ms) && forall i :: 0 <= i < |ms| ==> ms[i].session == sid
  {
    LookInside(steps, metas, blobs, tick, floor, disk);
    forall i | 0 <= i < |ms| ensures ms[i].Sound() && ms[i].session == sid {
      assert StepOnRecord(steps, sid, ms[i]);
    }
  }

  lemma OneStepAlone(
      steps: StepMap, metas: MetaMap, blobs: map<Hex, nat>, tick: nat, floor: map<SessionId, nat>, disk: Disk, k: Key)
    requires Sane(steps, metas, blobs, tick, floor, disk) && k in steps
    ensures steps[k].session == k.0 && steps[k].seqNo == k.1
    ensures Actions([steps[k]]) == StepActions(steps[k])
    ensures Marked(steps, [steps[k]]) == steps[k := steps[k].(status := Undone)]
  {
    LookInside(steps, metas, blobs, tick, floor, disk);
    assert [steps[k]][1..] == [] && [steps[k]][..0] == [];
    assert StepActions(steps[k]) + [] == StepActions(steps[k]);
  }

  /** The records once these steps are undone. */
  function Marked(steps: StepMap, ms: seq<Manifest>): (r: StepMap) {
    if ms == [] then steps else
      var last := ms[|ms| - 1];
      Marked(steps, ms[..|ms| - 1])[(last.session, last.seqNo) := last.(status := Undone)]
  }

  lemma {:induction false} MarkedElsewhere(steps: StepMap, sid: SessionId, ms: seq<Manifest>, k: nat)
    requires OnRecord(steps, sid, ms) && k < |ms| && forall i :: 0 <= i < |ms| ==> ms[i].session == sid
    ensures var r := Marked(steps, ms[..k]);
            (sid, ms[k].seqNo) in r && r[(sid, ms[k].seqNo)] == ms[k]
  {
    UnmarkedStays(steps, sid, ms[..k], ms[k].seqNo);
    assert StepOnRecord(steps, sid, ms[k]);
  }

  lemma {:induction false} UnmarkedStays(steps: StepMap, sid: SessionId, ms: seq<Manifest>, n: nat)
    requires (sid, n) in steps && forall i :: 0 <= i < |ms| ==> ms[i].seqNo != n
    ensures (sid, n) in Marked(steps, ms) && Marked(steps, ms)[(sid, n)] == steps[(sid, n)]
    decreases |ms|
  {
    if ms != [] {
      UnmarkedStays(steps, sid, ms[..|ms| - 1], n);
    }
  }

  /** The steps of a session that are not undone, newest first. */
  function NewestFirst(steps: StepMap, sid: SessionId, last: nat): (ms: seq<Manifest>) {
    if last == 0 then []
    else if (sid, last) in steps && steps[(sid, last)].status != Undone then
      [steps[(sid, last)]] + NewestFirst(steps, sid, last - 1)
    else NewestFirst(steps, sid, last - 1)
  }

  /** `m` is on record under its own number, at most `last`, and not undone. */
  predicate StillStands(steps: StepMap, sid: SessionId, last: nat, m: Manifest) {
    0 < m.seqNo <= last && (sid, m.seqNo) in steps && steps[(sid, m.seqNo)] == m && m.status != Undone
  }

  lemma {:induction false} NewestFirstAre(steps: StepMap, sid: SessionId, last: nat, ms: seq<Manifest>)
    requires ms == NewestFirst(steps, sid, last)
    requires forall n :: 0 < n <= last && (sid, n) in steps ==> steps[(sid, n)].seqNo == n
    ensures forall i :: 0 <= i < |ms| ==> StillStands(steps, sid, last, ms[i])
    ensures forall i, j :: 0 <= i < j < |ms| ==> ms[j].seqNo < ms[i].seqNo
    ensures forall n :: 0 < n <= last && (sid, n) in steps && steps[(sid, n)].status != Undone ==> steps[(sid, n)] in ms
    decreases last
  {
    if last > 0 {
      var rest := NewestFirst(steps, sid, last - 1);
      NewestFirstAre(steps, sid, last - 1, rest);
      forall i | 0 <= i < |rest| ensures StillStands(steps, sid, last, rest[i]) && rest[i].seqNo < last {
        assert StillStands(steps, sid, last - 1, rest[i]);
      }
      if ms != rest {
        assert ms == [steps[(sid, last)]] + rest && StillStands(steps, sid, last, ms[0]);
      }
    }
  }

  lemma SessionOnRecord(
      steps: StepMap, metas: MetaMap, blobs: map<Hex, nat>, tick: nat, floor: map<SessionId, nat>, disk: Disk,
      sid: SessionId, last: nat)
    requires Sane(steps, metas, blobs, tick, floor, disk)
    requires forall i :: 0 <= i < |NewestFirst(steps, sid, last)| ==> NewestFirst(steps, sid, last)[i].status != Prepared
    ensures OnRecord(steps, sid, NewestFirst(steps, sid, last))
  {
    LookInside(steps, metas, blobs, tick, floor, disk);
    var ms := NewestFirst(steps, sid, last);
    NewestFirstAre(steps, sid, last, ms);
    forall i | 0 <= i < |ms| ensures StepOnRecord(steps, sid, ms[i]) {
      assert StillStands(steps, sid, last, ms[i]);
    }
  }

  /** A session undo leaves out no step: those above the last number are none, those below are on the list
      unless undone. */
  lemma SessionListIsComplete(
      steps: StepMap, metas: MetaMap, blobs: map<Hex, nat>, tick: nat, floor: map<SessionId, nat>, disk: Disk, k: Key)
    requires Sane(steps, metas, blobs, tick, floor, disk) && k in steps && steps[k].status != Undone
    ensures steps[k] in NewestFirst(steps, k.0, MetaOf(metas, k.0).lastSeq)
  {
    LookInside(steps, metas, blobs, tick, floor, disk);
    var last := MetaOf(metas, k.0).lastSeq;
    NewestFirstAre(steps, k.0, last, NewestFirst(steps, k.0, last));
  }
}
