/** Concrete stores on which the documentation of `agent-checkpoints` promises more than the code does.

    Each is given as an instance of what the store's methods state: two begins (`Begun`), one that exceeds
    the cap and one that is refused after it has evicted a step; a failed commit with a begin before its
    drop; and lives of a store (`Lives`) from its first opening on, ended by a crash amid an eviction that a
    begin calls for (`Evicts`): one gives a number out twice, one forgets that a step was pruned. */
module StoreWitness {
  import opened Wrappers
  import opened FileTree
  import opened Steps
  import opened Undo
  import opened StepBegin
  import opened StoreState
  import opened StoreInvariants
  import opened StoreTrail
  import opened CheckpointStore
  import opened StoreTheorems

  const X: Hex := Sha([1, 1, 1, 1, 1, 1])
  const Z: Hex := Sha([2, 2, 2, 2, 2, 2])
  const W: Hex := Sha([3, 3, 3, 3, 3, 3, 3])

  /** The granted folder is the root, with three files in it. */
  const FOLDER: Tree :=
    map[[] := Dir, ["x"] := File(X.content, 420), ["z"] := File(Z.content, 420), ["w"] := File(W.content, 420)]

  function Deletes(name: string): (c: Change) {
    Delete(Given(false, [Normal(name)]))
  }

  function PlanOf(name: string): (p: Plan) {
    Plan(Resolved([name], [name], []), Deleting)
  }

  function EntryOf(name: string, h: Hex): (e: Entry) {
    Entry([name], WasFile(h, |h.content|, 420), Absent, None)
  }

  predicate HoldsFile(name: string, h: Hex) {
    [name] in FOLDER && FOLDER[[name]] == File(h.content, 420)
  }

  // ----- What begin_step makes of deletions ------------------------------------------------------------

  lemma DeletePlanned(name: string, n: nat)
    ensures PlansFor(FOLDER, [], [], Deletes(name), n) == Ok([PlanOf(name)])
  {
    var cs := [Normal(name)];
    assert cs[..0] == [] && Names(cs[..0]) == [];
    assert Names(cs) == [name] && Plain(cs);
    assert [] + [name] == [name];
    assert MissingDirs(FOLDER, [], [name], 1) == [];
  }

  lemma DeleteCaptured(name: string, h: Hex)
    requires HoldsFile(name, h) && |h.content| <= 100
    ensures CaptureOf(FOLDER, PlanOf(name), 100) == Ok(WasFile(h, |h.content|, 420))
  {
    var p := [name];
    assert p[..0] == [];
    assert Sha(h.content) == h;
  }

  lemma OneDeletion(name: string, h: Hex, busy: set<Path>)
    requires HoldsFile(name, h) && |h.content| <= 100 && [name] !in busy
    ensures Screened(FOLDER, [], [], [Deletes(name)], busy, 100) == Ok(([PlanOf(name)], [EntryOf(name, h)]))
    ensures FilesOf([EntryOf(name, h)]) == {h} && AbsOf([PlanOf(name)]) == {[name]}
  {
    var changes, plans := [Deletes(name)], [PlanOf(name)];
    DeletePlanned(name, 0);
    DeleteCaptured(name, h);
    assert changes[..0] == [] && PlansOf(FOLDER, [], [], changes[..0]) == Ok([]);
    assert [] + plans == plans;
    assert PlansOf(FOLDER, [], [], changes) == Ok(plans);
    assert plans[1..] == [] && FirstBusyOf(plans, busy).None?;
    assert plans[..0] == [] && EntriesOf(FOLDER, plans[..0], 100) == Ok([]);
    assert [] + [EntryOf(name, h)] == [EntryOf(name, h)];
    assert EntriesOf(FOLDER, plans, 100) == Ok([EntryOf(name, h)]);
    assert [EntryOf(name, h)][..0] == [] && FilesOf([EntryOf(name, h)][..0]) == {};
    assert plans[0].res.abs == [name];
  }

  const X_AND_Z: seq<Plan> := [PlanOf("x"), PlanOf("z")]

  const X_AND_Z_THERE: seq<Entry> := [EntryOf("x", X), EntryOf("z", Z)]

  lemma TwoPlans()
    ensures PlansOf(FOLDER, [], [], [Deletes("x"), Deletes("z")]) == Ok(X_AND_Z)
  {
    var changes := [Deletes("x"), Deletes("z")];
    DeletePlanned("x", 0);
    DeletePlanned("z", 1);
    assert changes[..1] == [Deletes("x")] && [Deletes("x")][..0] == [];
    assert PlansOf(FOLDER, [], [], []) == Ok([]) && [] + [PlanOf("x")] == [PlanOf("x")];
    assert PlansOf(FOLDER, [], [], [Deletes("x")]) == Ok([PlanOf("x")]);
    assert [PlanOf("x")] + [PlanOf("z")] == X_AND_Z;
  }

  lemma TwoEntries()
    ensures EntriesOf(FOLDER, X_AND_Z, 100) == Ok(X_AND_Z_THERE)
    ensures FilesOf(X_AND_Z_THERE) == {X, Z}
  {
    OneDeletion("x", X, {});
    DeleteCaptured("z", Z);
    assert X_AND_Z[..1] == [PlanOf("x")];
    assert EntriesOf(FOLDER, [PlanOf("x")], 100) == Ok([EntryOf("x", X)]);
    assert [EntryOf("x", X)] + [EntryOf("z", Z)] == X_AND_Z_THERE;
    assert X_AND_Z_THERE[..1] == [EntryOf("x", X)];
  }

  lemma TwoPaths()
    ensures ListsEachOnce(X_AND_Z) && AbsOf(X_AND_Z) == {["x"], ["z"]} && FirstBusyOf(X_AND_Z, {}).None?
  {
    assert X_AND_Z[0].res == Resolved(["x"], ["x"], []) && X_AND_Z[1].res == Resolved(["z"], ["z"], []);
    NoneBusy(X_AND_Z, {});
  }

  lemma ScreenedFrom(changes: seq<Change>, plans: seq<Plan>, entries: seq<Entry>)
    requires PlansOf(FOLDER, [], [], changes) == Ok(plans) && EntriesOf(FOLDER, plans, 100) == Ok(entries)
    requires ListsEachOnce(plans) && FirstBusyOf(plans, {}).None?
    ensures Screened(FOLDER, [], [], changes, {}, 100) == Ok((plans, entries))
  {
  }

  lemma TwoDeletions()
    ensures Screened(FOLDER, [], [], [Deletes("x"), Deletes("z")], {}, 100) == Ok((X_AND_Z, X_AND_Z_THERE))
  {
    TwoPlans();
    TwoEntries();
    TwoPaths();
    ScreenedFrom([Deletes("x"), Deletes("z")], X_AND_Z, X_AND_Z_THERE);
  }

  // ----- Stores of one or two steps --------------------------------------------------------------------

  function Deletion(sid: SessionId, seqNo: nat, name: string, h: Hex, status: StepStatus): (m: Manifest) {
    Manifest(sid, seqNo, [], status, [EntryOf(name, h)], [])
  }

  lemma ReferencedByOne(k: Key, m: Manifest, name: string, h: Hex)
    requires m.entries == [EntryOf(name, h)]
    ensures Referenced(map[k := m]) == {h}
  {
    var steps := map[k := m];
    forall g ensures g in Referenced(steps) <==> g == h {
      if g in Referenced(steps) {
        var j, i :| j in steps && 0 <= i < |steps[j].entries| && steps[j].entries[i].before.WasFile?
                    && steps[j].entries[i].before.blob == g;
        assert j == k && i == 0;
      }
      if g == h {
        assert k in steps && steps[k].entries[0].before.WasFile? && steps[k].entries[0].before.blob == h;
      }
    }
  }

  lemma TotalOfOne(h: Hex)
    ensures Total({h}) == |h.content|
  {
    TotalWithout({h}, h);
    assert {h} - {h} == {};
  }

  lemma TotalOfTwo(g: Hex, h: Hex)
    requires g != h
    ensures Total({g, h}) == |g.content| + |h.content|
  {
    TotalOfOne(g);
    TotalOfOne(h);
    assert {g, h} == {g} + {h};
    TotalOfBoth({g}, {h});
  }

  lemma OnlyOneEvictable(steps: StepMap, metas: MetaMap, k: Key)
    requires Evictable(steps, k) && forall j :: Evictable(steps, j) ==> j == k
    ensures IsVictim(steps, metas, k)
  {
  }

  // ----- The cap ---------------------------------------------------------------------------------------

  /** One step on record, which deleted the six bytes of `x`. */
  const BEFORE_X: Kept := Kept(map[(0, 1) := Deletion(0, 1, "x", X, Committed)], map[0 := SessionMeta(1, 1, 0)], {X})

  lemma EvictingX()
    ensures IsVictim(BEFORE_X.steps, BEFORE_X.metas, (0, 1))
    ensures EvictAll(BEFORE_X, [(0, 1)]) == Kept(map[], map[0 := SessionMeta(1, 1, 1)], {})
  {
    var k: Key := (0, 1);
    OnlyOneEvictable(BEFORE_X.steps, BEFORE_X.metas, k);
    assert BEFORE_X.steps - {k} == map[] && Referenced(map[]) == {};
    assert Evict(BEFORE_X, k) == Kept(map[], map[0 := SessionMeta(1, 1, 1)], {});
    assert [k][1..] == [];
  }

  lemma NeededForZ()
    ensures Total({X, Z} - BEFORE_X.blobs) == 6 && Total(BEFORE_X.blobs) == 6 && Total({X, Z}) == 12 && Total({}) == 0
  {
    TotalOfOne(X);
    TotalOfOne(Z);
    TotalOfTwo(X, Z);
    assert {X, Z} - {X} == {Z};
  }

  lemma EvictingXIsJustified()
    ensures Justified(BEFORE_X, [(0, 1)], 6, 10)
  {
    EvictingX();
    NeededForZ();
    assert [(0, 1)][1..] == [];
  }

  /** With a cap of ten bytes the member puts `x` back and a step deletes it again, together with the six bytes
      of `z`: it is accepted, and the store holds twelve. */
  lemma CapCanBeExceeded() returns (after: Kept)
    ensures Begun(FOLDER, 0, [], [], [Deletes("x"), Deletes("z")], 10, 100, BEFORE_X, {},
                  Ok(2), [(0, 1)], after, {["x"], ["z"]})
    ensures Total(BEFORE_X.blobs) <= 10 < Total(after.blobs)
  {
    TwoDeletions();
    after := XAndZStored();
    NeededForZ();
  }

  lemma XAndZStored() returns (after: Kept)
    ensures Stored(0, [], X_AND_Z, X_AND_Z_THERE, 10, BEFORE_X, {}, Ok(2), [(0, 1)], after, {["x"], ["z"]})
    ensures after.blobs == {X, Z}
  {
    TwoEntries();
    TwoPaths();
    EvictingX();
    EvictingXIsJustified();
    NeededForZ();
    var m := ManifestOf(0, 2, [], X_AND_Z_THERE, X_AND_Z);
    after := Kept(map[(0, 2) := m], map[0 := SessionMeta(2, 2, 1)], {X, Z});
    var kept := EvictAll(BEFORE_X, [(0, 1)]);
    assert kept.steps[(0, 2) := m] == after.steps && kept.blobs + {X, Z} == {X, Z};
    StoredNow(0, [], X_AND_Z, X_AND_Z_THERE, 10, BEFORE_X, {}, [(0, 1)], 6, 2, 2, after, {["x"], ["z"]});
  }

  // ----- A refused step --------------------------------------------------------------------------------

  const OLD: Manifest := Deletion(0, 1, "x", X, Committed)

  const RUNNING: Manifest := Deletion(1, 1, "z", Z, Prepared)

  /** An old step, and one in flight. */
  const BEFORE_TWO: Kept :=
    Kept(map[(0, 1) := OLD, (1, 1) := RUNNING], map[0 := SessionMeta(1, 1, 0), 1 := SessionMeta(2, 1, 0)], {X, Z})

  lemma EvictingTheOld()
    ensures IsVictim(BEFORE_TWO.steps, BEFORE_TWO.metas, (0, 1))
    ensures var r := EvictAll(BEFORE_TWO, [(0, 1)]);
            r.steps == map[(1, 1) := RUNNING] && r.blobs == {Z} && forall k :: !Evictable(r.steps, k)
  {
    var k: Key := (0, 1);
    OnlyOneEvictable(BEFORE_TWO.steps, BEFORE_TWO.metas, k);
    assert BEFORE_TWO.steps - {k} == map[(1, 1) := RUNNING];
    ReferencedByOne((1, 1), RUNNING, "z", Z);
    assert {X, Z} * {Z} == {Z};
    assert [k][1..] == [];
    assert EvictAll(BEFORE_TWO, [k]) == Evict(BEFORE_TWO, k);
  }

  /** With a cap of twelve bytes a step of seven is refused, and the old step is gone. */
  lemma RefusedStepStillEvicts() returns (after: Kept)
    ensures Begun(FOLDER, 2, [], [], [Deletes("w")], 12, 100, BEFORE_TWO, {["z"]},
                  Err(StoreFull(7, 12)), [(0, 1)], after, {["z"]})
    ensures (0, 1) in BEFORE_TWO.steps && (0, 1) !in after.steps
  {
    OneDeletion("w", W, {["z"]});
    EvictingTheOld();
    TotalOfTwo(X, Z);
    TotalOfOne(Z);
    TotalOfOne(W);
    assert {W} - {X, Z} == {W};
    assert [(0, 1)][1..] == [];
    assert Justified(BEFORE_TWO, [(0, 1)], 7, 12);
    after := EvictAll(BEFORE_TWO, [(0, 1)]);
  }

  // ----- A commit that fails ---------------------------------------------------------------------------

  /** Looking at the path fails. */
  function Unreadable(p: Path): (r: Result<Fingerprint, Error>) {
    Err(Io)
  }

  const FIRST: Manifest := Deletion(0, 1, "x", X, Prepared)

  const BEFORE_FIRST: Kept := Kept(map[(0, 1) := FIRST], map[0 := SessionMeta(1, 1, 0)], {X})

  lemma OnlyFirstInFlight()
    ensures InFlight(BEFORE_FIRST.steps, FIRST.Paths())
  {
    assert InFlightParts(map[], {});
    InFlightWith(map[], {}, (0, 1), FIRST);
    assert {} + FIRST.Paths() == FIRST.Paths();
    assert map[][(0, 1) := FIRST] == BEFORE_FIRST.steps;
  }

  /** The commit of a step fails, which frees its path; another step begins on the path; the drop of the first
      frees it again, and the second step is in flight on a path that is not guarded. */
  lemma FailedCommitUnguards() returns (after: Kept)
    ensures InFlight(BEFORE_FIRST.steps, FIRST.Paths()) && FIRST.Paths() == {["x"]}
    ensures FinishedStep(FIRST, true, Unreadable) == Err(Io)
    ensures Begun(FOLDER, 1, [], [], [Deletes("x")], 100, 100, BEFORE_FIRST, FIRST.Paths() - FIRST.Paths(),
                  Ok(1), [], after, {["x"]})
    ensures var dropped := after.steps[(0, 1) := FIRST.(status := Interrupted)];
            && (1, 1) in dropped && dropped[(1, 1)].status == Prepared && ["x"] in dropped[(1, 1)].Paths()
            && ["x"] !in {["x"]} - FIRST.Paths()
            && !InFlight(dropped, {["x"]} - FIRST.Paths())
  {
    var plans, entries := [PlanOf("x")], [EntryOf("x", X)];
    assert FIRST.entries[0].path == ["x"] && FIRST.root + FIRST.entries[0].path == ["x"];
    assert FIRST.Paths() == {["x"]};
    OnlyFirstInFlight();
    assert FIRST.entries[..0] == [];
    OneDeletion("x", X, {});
    assert {["x"]} - {["x"]} == {};
    TotalOfOne(X);
    assert {X} - {X} == {};
    var m := ManifestOf(1, 1, [], entries, plans);
    after := Kept(BEFORE_FIRST.steps[(1, 1) := m], BEFORE_FIRST.metas[1 := SessionMeta(2, 1, 0)], {X});
    assert {X} + {X} == {X};
    StoredNow(1, [], plans, entries, 100, BEFORE_FIRST, {}, [], 0, 1, 2, after, {["x"]});
    var dropped := after.steps[(0, 1) := FIRST.(status := Interrupted)];
    assert dropped[(1, 1)] == m && m.entries[0].path == ["x"] && m.root + m.entries[0].path == ["x"];
    if InFlight(dropped, {["x"]} - FIRST.Paths()) {
      LookInsideFlight(dropped, {["x"]} - FIRST.Paths());
    }
  }

  // ----- Writing a trail -------------------------------------------------------------------------------

  /** The maps in memory, and the floor they go with. */
  datatype Memory = Memory(
    steps: StepMap, metas: MetaMap, blobs: map<Hex, nat>, tick: nat, floor: map<SessionId, nat>)

  /** Between two operations, with this memory and this disk. */
  ghost predicate At(trail: seq<Moment>, y: Memory, disk: Disk) {
    && Sane(y.steps, y.metas, y.blobs, y.tick, y.floor, disk)
    && Story(trail) && Now(trail, disk, LastsOf(y.metas))
  }

  lemma Installed(trail: seq<Moment>, y: Memory, disk: Disk, h: Hex) returns (more: seq<Moment>)
    requires At(trail, y, disk) && h !in y.blobs
    ensures |more| > |trail| && more[0] == trail[0]
    ensures At(more, y.(blobs := y.blobs[h := |h.content|]), disk.(blobs := disk.blobs[h := h.content]))
  {
    var d := disk.(blobs := disk.blobs[h := h.content]);
    AddBlobKeeps(y.steps, y.metas, y.blobs, y.tick, y.floor, disk, h);
    QuietWrite(y.steps, y.metas, y.blobs, y.tick, y.floor, disk, y.metas, y.blobs[h := |h.content|], y.tick, y.floor, d);
    OneMoreMoment(trail, Moment(d, LastsOf(y.metas), None));
    more := trail + [Moment(d, LastsOf(y.metas), None)];
  }

  function WithStep(y: Memory, m: Manifest): (y1: Memory) {
    y.(steps := y.steps[(m.session, m.seqNo) := m],
       metas := y.metas[m.session := NextMeta(y.metas, m.session)],
       floor := y.floor[m.session := FloorOf(y.floor, m.session)])
  }

  lemma Recorded(trail: seq<Moment>, y: Memory, disk: Disk, m: Manifest) returns (more: seq<Moment>)
    requires At(trail, y, disk) && m.seqNo == NextMeta(y.metas, m.session).lastSeq && m.Sound()
    requires FilesOf(m.entries) <= y.blobs.Keys
    ensures |more| > |trail| && more[0] == trail[0]
    ensures At(more, WithStep(y, m), disk.(steps := disk.steps[(m.session, m.seqNo) := m]))
  {
    var d, y1 := disk.(steps := disk.steps[(m.session, m.seqNo) := m]), WithStep(y, m);
    RecordKeeps(y.steps, y.metas, y.blobs, y.tick, y.floor, disk, m);
    RecordWrite(y.steps, y.metas, y.blobs, y.tick, y.floor, disk, m);
    SaneIsSafe(y1.steps, y1.metas, y1.blobs, y1.tick, y1.floor, d);
    OneMoreMoment(trail, Moment(d, LastsOf(y1.metas), None));
    more := trail + [Moment(d, LastsOf(y1.metas), None)];
  }

  function UsedNow(y: Memory, sid: SessionId): (y1: Memory) {
    y.(metas := y.metas[sid := MetaOf(y.metas, sid).(lastUsed := y.tick + 1)],
       tick := y.tick + 1, floor := y.floor[sid := FloorOf(y.floor, sid)])
  }

  lemma Used(trail: seq<Moment>, y: Memory, disk: Disk, sid: SessionId) returns (more: seq<Moment>)
    requires At(trail, y, disk)
    ensures |more| > |trail| && more[0] == trail[0]
    ensures At(more, UsedNow(y, sid), disk.(metas := disk.metas[sid := MetaOf(y.metas, sid).(lastUsed := y.tick + 1)]))
  {
    var y1 := UsedNow(y, sid);
    var d := disk.(metas := disk.metas[sid := y1.metas[sid]]);
    TouchKeeps(y.steps, y.metas, y.blobs, y.tick, y.floor, disk, sid);
    TouchIsUse(y.steps, y.metas, y.blobs, y.tick, y.floor, disk, sid);
    QuietWrite(y.steps, y.metas, y.blobs, y.tick, y.floor, disk, y1.metas, y1.blobs, y1.tick, y1.floor, d);
    OneMoreMoment(trail, Moment(d, LastsOf(y1.metas), None));
    more := trail + [Moment(d, LastsOf(y1.metas), None)];
  }

  lemma Rewritten(trail: seq<Moment>, y: Memory, disk: Disk, k: Key, m: Manifest) returns (more: seq<Moment>)
    requires At(trail, y, disk) && k in y.steps && SameStep(y.steps[k], m)
    ensures |more| > |trail| && more[0] == trail[0]
    ensures At(more, y.(steps := y.steps[k := m]), disk.(steps := disk.steps[k := m]))
  {
    var d := disk.(steps := disk.steps[k := m]);
    RestatusKeeps(y.steps, y.metas, y.blobs, y.tick, y.floor, disk, k, m);
    RestatusWrite(y.steps, y.metas, y.blobs, y.tick, y.floor, disk, k, m);
    SaneIsSafe(y.steps[k := m], y.metas, y.blobs, y.tick, y.floor, d);
    OneMoreMoment(trail, Moment(d, LastsOf(y.metas), None));
    more := trail + [Moment(d, LastsOf(y.metas), None)];
  }

  /** The manifest of `k` is removed, and then the process ends. */
  lemma CrashesEvicting(trail: seq<Moment>, y: Memory, disk: Disk, k: Key) returns (life: Life)
    requires At(trail, y, disk) && Oldest(y.steps, k) && trail[0].evicting.None?
    ensures Lived(life) && life.trail[0] == trail[0] && life.ended == |trail|
    ensures life.trail == trail + [Moment(disk.(steps := disk.steps - {k}), LastsOf(y.metas), Some(k))]
  {
    EvictionWrites(y.steps, y.metas, y.blobs, y.tick, y.floor, disk, k);
    OneMoreMoment(trail, Moment(disk.(steps := disk.steps - {k}), LastsOf(y.metas), Some(k)));
    life := Life(trail + [Moment(disk.(steps := disk.steps - {k}), LastsOf(y.metas), Some(k))], |trail|);
  }

  /** A process that ends between two operations. */
  lemma CrashesIdle(trail: seq<Moment>, y: Memory, disk: Disk) returns (life: Life)
    requires At(trail, y, disk) && trail[0].evicting.None?
    ensures Lived(life) && life == Life(trail, |trail| - 1) && life.trail[life.ended] == Moment(disk, LastsOf(y.metas), None)
  {
    life := Life(trail, |trail| - 1);
  }

  const BLANK: Disk := Disk(map[], map[], map[])

  const NOTHING: Memory := Memory(map[], map[], map[], 0, map[])

  lemma NewStore() returns (trail: seq<Moment>)
    ensures At(trail, NOTHING, BLANK) && trail == [Moment(BLANK, map[], None)]
  {
    assert Referenced(map[]) == {};
    assert SaneParts(map[], map[], map[], 0, map[], BLANK);
    SaneIsSafe(map[], map[], map[], 0, map[], BLANK);
    assert LastsOf(map[]) == map[];
    StoryStarts(Moment(BLANK, map[], None));
    trail := [Moment(BLANK, map[], None)];
  }

  lemma DeletionIsSound(sid: SessionId, seqNo: nat, name: string, h: Hex, status: StepStatus)
    ensures var m := Deletion(sid, seqNo, name, h, status); m.Sound() && FilesOf(m.entries) == {h}
  {
    var m := Deletion(sid, seqNo, name, h, status);
    assert m.entries[..0] == [] && FilesOf([]) == {};
  }

  /** The records a store reads from a disk that fits this memory. */
  lemma ReadsTheRecords(disk: Disk, y: Memory, sessions: MetaMap, floor: map<SessionId, nat>)
    requires Sane(y.steps, y.metas, y.blobs, y.tick, y.floor, disk) && Loaded(disk, sessions, floor)
    ensures sessions.Keys == Known(disk) && SameRecords(sessions, y.metas)
  {
    LookInside(y.steps, y.metas, y.blobs, y.tick, y.floor, disk);
    LookInsideLoaded(disk, sessions, floor);
  }

  // ----- A number given out twice ----------------------------------------------------------------------

  const X_STORED: BlobStore := map[X := X.content]

  /** The step's manifest is written, the session's record is not. */
  const WRITTEN: Disk := Disk(map[(0, 1) := FIRST], map[], X_STORED)

  const STOPPED: Manifest := FIRST.(status := Interrupted)

  const READ: Disk := Disk(map[(0, 1) := STOPPED], map[], X_STORED)

  const READ_IN: Memory := Memory(READ.steps, map[0 := SessionMeta(0, 1, 0)], map[X := 6], 0, map[0 := 0])

  /** The manifest is gone again, and the session's record still not written. */
  const FORGETFUL: Disk := Disk(map[], map[], X_STORED)

  /** The first life ends before the session's record is written. */
  lemma FirstLife() returns (life: Life)
    ensures Lived(life) && life.trail[0] == Moment(BLANK, map[], None)
    ensures life.trail[life.ended] == Moment(WRITTEN, map[0 := 1], None)
  {
    var t := NewStore();
    t := Installed(t, NOTHING, BLANK, X);
    var y := NOTHING.(blobs := map[X := 6]);
    assert map[][X := |X.content|] == y.blobs && map[][X := X.content] == X_STORED;
    DeletionIsSound(0, 1, "x", X, Prepared);
    t := Recorded(t, y, BLANK.(blobs := X_STORED), FIRST);
    assert LastsOf(WithStep(y, FIRST).metas) == map[0 := 1];
    life := CrashesIdle(t, WithStep(y, FIRST), WRITTEN);
  }

  lemma ReadIsSane()
    ensures Sane(READ_IN.steps, READ_IN.metas, READ_IN.blobs, READ_IN.tick, READ_IN.floor, READ)
  {
    assert forall k: Key :: k.0 == 0 && 0 < k.1 <= 1 <==> k == (0, 1);
    assert MetaOf(READ.metas, 0) == NEW_SESSION;
    assert Fits(READ.steps, READ.metas, READ_IN.metas, READ_IN.floor);
    DeletionIsSound(0, 1, "x", X, Interrupted);
    ReferencedByOne((0, 1), STOPPED, "x", X);
    assert SaneParts(READ.steps, READ_IN.metas, READ_IN.blobs, 0, READ_IN.floor, READ);
  }

  /** The second reads the step as interrupted. */
  lemma SecondLifeOpens(first: Life) returns (trail: seq<Moment>)
    requires Lived(first) && first.trail[first.ended] == Moment(WRITTEN, map[0 := 1], None)
    ensures At(trail, READ_IN, READ) && trail[0] == Moment(WRITTEN, map[0 := 1], None)
  {
    var one := map[0 := 1];
    assert InsideStory(first.trail);
    assert Safe(first.trail[first.ended]);
    StoryStarts(Moment(WRITTEN, one, None));
    ReadIsSane();
    SaneIsSafe(READ_IN.steps, READ_IN.metas, READ_IN.blobs, READ_IN.tick, READ_IN.floor, READ);
    assert LastsOf(READ_IN.metas) == one;
    assert SameStep(FIRST, STOPPED) && WRITTEN.steps[(0, 1) := STOPPED] == READ.steps;
    RewritingFollows(WRITTEN, one, (0, 1), STOPPED);
    OneMoreMoment([Moment(WRITTEN, one, None)], Moment(READ, one, None));
    trail := [Moment(WRITTEN, one, None)] + [Moment(READ, one, None)];
  }

  /** With a cap of twelve bytes, a begin that needs seven evicts the step that takes six. */
  lemma SecondLifeEvicts(sessions: MetaMap, floor: map<SessionId, nat>)
    requires Loaded(READ, sessions, floor)
    ensures Evicts(FOLDER, [], [], [Deletes("w")], 12, 100, Kept(READ.steps, sessions, {X}), {}, (0, 1))
  {
    ReadIsSane();
    ReadsTheRecords(READ, READ_IN, sessions, floor);
    OneDeletion("w", W, {});
    TotalOfOne(W);
    TotalOfOne(X);
    assert {W} - {X} == {W};
    OnlyOneEvictable(READ.steps, sessions, (0, 1));
    assert [(0, 1)][1..] == [];
  }

  /** Two crashes, and the third life gives out number 1 again. The first comes between the manifest and the
      session's record, the second between the two writes of an eviction. */
  lemma TwoCrashesReuseANumber(
      second: MetaMap, floor2: map<SessionId, nat>, third: MetaMap, floor3: map<SessionId, nat>) returns (ls: seq<Life>)
    requires Loaded(READ, second, floor2) && Loaded(FORGETFUL, third, floor3)
    ensures Lives(ls) && |ls| == 2 && ls[0].trail[0].disk == BLANK && Present(ls) == FORGETFUL
    ensures (0, 1) in ls[0].trail[ls[0].ended].disk.steps && LastIn(ls[0].trail[ls[0].ended].last, 0) == 1
    ensures var trail, crash := ls[1].trail, ls[1].ended;
            && crash > 0 && trail[crash - 1].disk == READ && trail[crash].evicting == Some((0, 1))
            && Evicts(FOLDER, [], [], [Deletes("w")], 12, 100, Kept(READ.steps, second, READ.blobs.Keys), {}, (0, 1))
    ensures NextMeta(third, 0).lastSeq == 1
  {
    var a := FirstLife();
    var t := SecondLifeOpens(a);
    var b := CrashesEvicting(t, READ_IN, READ, (0, 1));
    assert READ.steps - {(0, 1)} == map[];
    ls := [a, b];
    assert Lived(ls[0]) && Lived(ls[1]) && OpensOn(ls[0], ls[1]);
    SecondLifeEvicts(second, floor2);
    assert READ.blobs.Keys == {X};
    LookInsideLoaded(FORGETFUL, third, floor3);
    assert 0 !in Known(FORGETFUL);
  }

  // ----- A pruned step that is not known to be -----------------------------------------------------------

  const DONE: Manifest :=
    Manifest(0, 1, [], Committed, [EntryOf("x", X).(after := Some(Absent))], [])

  const SECOND: Manifest := Deletion(0, 2, "z", Z, Prepared)

  const X_Z_STORED: BlobStore := map[X := X.content, Z := Z.content]

  /** Two steps of a session on record. */
  const BOTH: Disk := Disk(map[(0, 1) := DONE, (0, 2) := SECOND], map[0 := SessionMeta(3, 2, 0)], X_Z_STORED)

  const BOTH_IN: Memory := Memory(BOTH.steps, BOTH.metas, map[X := 6, Z := 6], 3, map[0 := 0])

  /** The manifest of the first is gone, and the session's record says that nothing was pruned. */
  const GAP: Disk := Disk(map[(0, 2) := SECOND], map[0 := SessionMeta(3, 2, 0)], X_Z_STORED)

  lemma FirstStepDone() returns (trail: seq<Moment>, y: Memory, disk: Disk)
    ensures At(trail, y, disk) && trail[0] == Moment(BLANK, map[], None)
    ensures y == Memory(map[(0, 1) := DONE], map[0 := SessionMeta(2, 1, 0)], map[X := 6], 2, map[0 := 0])
    ensures disk == Disk(map[(0, 1) := DONE], map[0 := SessionMeta(2, 1, 0)], X_STORED)
  {
    trail := NewStore();
    trail := Installed(trail, NOTHING, BLANK, X);
    y, disk := NOTHING.(blobs := map[X := 6]), BLANK.(blobs := X_STORED);
    assert map[][X := |X.content|] == y.blobs && map[][X := X.content] == X_STORED;
    DeletionIsSound(0, 1, "x", X, Prepared);
    trail := Recorded(trail, y, disk, FIRST);
    y, disk := WithStep(y, FIRST), disk.(steps := disk.steps[(0, 1) := FIRST]);
    trail := Used(trail, y, disk, 0);
    y, disk := UsedNow(y, 0), disk.(metas := disk.metas[0 := SessionMeta(1, 1, 0)]);
    assert SameStep(FIRST, DONE);
    trail := Rewritten(trail, y, disk, (0, 1), DONE);
    y, disk := y.(steps := y.steps[(0, 1) := DONE]), disk.(steps := disk.steps[(0, 1) := DONE]);
    trail := Used(trail, y, disk, 0);
    y, disk := UsedNow(y, 0), disk.(metas := disk.metas[0 := SessionMeta(2, 1, 0)]);
  }

  lemma SecondStepBegun() returns (trail: seq<Moment>)
    ensures At(trail, BOTH_IN, BOTH) && trail[0] == Moment(BLANK, map[], None)
  {
    var y, disk;
    trail, y, disk := FirstStepDone();
    trail := Installed(trail, y, disk, Z);
    y, disk := y.(blobs := y.blobs[Z := |Z.content|]), disk.(blobs := disk.blobs[Z := Z.content]);
    DeletionIsSound(0, 2, "z", Z, Prepared);
    trail := Recorded(trail, y, disk, SECOND);
    y, disk := WithStep(y, SECOND), disk.(steps := disk.steps[(0, 2) := SECOND]);
    trail := Used(trail, y, disk, 0);
    assert disk.metas[0 := SessionMeta(3, 2, 0)] == BOTH.metas && disk.steps == BOTH.steps && disk.blobs == X_Z_STORED;
    assert UsedNow(y, 0) == BOTH_IN;
  }

  /** With a cap of eighteen bytes, a begin that needs seven evicts the first step. */
  lemma FirstStepGoes()
    ensures Evicts(FOLDER, [], [], [Deletes("w")], 18, 100, Kept(BOTH.steps, BOTH.metas, {X, Z}), {["z"]}, (0, 1))
  {
    OneDeletion("w", W, {["z"]});
    TotalOfOne(W);
    TotalOfTwo(X, Z);
    assert {W} - {X, Z} == {W};
    OnlyOneEvictable(BOTH.steps, BOTH.metas, (0, 1));
    assert [(0, 1)][1..] == [];
  }

  lemma GapIsNotWhole()
    requires Sane(BOTH_IN.steps, BOTH_IN.metas, BOTH_IN.blobs, BOTH_IN.tick, BOTH_IN.floor, BOTH)
    ensures Whole(BOTH, 0) && !Whole(GAP, 0)
  {
    LookInside(BOTH_IN.steps, BOTH_IN.metas, BOTH_IN.blobs, BOTH_IN.tick, BOTH_IN.floor, BOTH);
    assert BOTH.steps - {(0, 1)} == GAP.steps && BOTH.(steps := GAP.steps) == GAP;
    WholeIs(BOTH, BOTH_IN.metas, BOTH_IN.floor, 0);
    WholeAfterCrash(BOTH, BOTH_IN.metas, BOTH_IN.floor, (0, 1), 0);
  }

  /** A crash between the two writes of an eviction leaves a session with a step missing above the pruned ones. */
  lemma CrashLeavesAGap() returns (ls: seq<Life>)
    ensures Lives(ls) && |ls| == 1 && ls[0].trail[0].disk == BLANK && Present(ls) == GAP
    ensures var trail, crash := ls[0].trail, ls[0].ended;
            && crash > 0 && trail[crash - 1].disk == BOTH && trail[crash].evicting == Some((0, 1))
            && Whole(BOTH, 0)
            && Evicts(FOLDER, [], [], [Deletes("w")], 18, 100, Kept(BOTH.steps, BOTH.metas, BOTH.blobs.Keys), {["z"]}, (0, 1))
    ensures !Whole(GAP, 0) && Recoverable(GAP)
  {
    var t := SecondStepBegun();
    var life := CrashesEvicting(t, BOTH_IN, BOTH, (0, 1));
    assert BOTH.steps - {(0, 1)} == GAP.steps && BOTH.(steps := GAP.steps) == GAP;
    ls := [life];
    FirstStepGoes();
    assert BOTH.blobs.Keys == {X, Z};
    GapIsNotWhole();
    assert InsideStory(life.trail);
    assert Safe(life.trail[life.ended]);
  }

  /** And then the undo of the pruned step answers that there never was one. */
  method PrunedStepIsNotFound(fs: Tree, seen: BlobStore) returns (r: Result<UndoReport, Error>)
    requires Wf(fs)
    ensures r == Err(NotFound)
  {
    ghost var ls := CrashLeavesAGap();
    var store := new CheckpointStore.Open(GAP, 18, 100);
    LookInsideLoaded(GAP, store.sessions, store.floor);
    ghost var metas, floor := SomeMemoryFits(GAP);
    assert SameRecords(store.sessions, metas) && MetaAgrees(metas[0], floor[0], GAP.metas[0]);
    var g;
    r, g := store.UndoStep(fs, seen, 0, 1);
  }
}
