/** The persistent state of the checkpoint store and what must always hold of it, as values. */
module StoreState {
  import opened FileTree
  import opened Steps
  import opened Undo

  /** A step's session and number. */
  type Key = (SessionId, nat)

  type StepMap = map<Key, Manifest>

  type MetaMap = map<SessionId, SessionMeta>

  /** The store directory: step manifests, session records and blobs. */
  datatype Disk = Disk(steps: StepMap, metas: MetaMap, blobs: BlobStore)

  function MetaOf(metas: MetaMap, sid: SessionId): (meta: SessionMeta) {
    if sid in metas then metas[sid] else NEW_SESSION
  }

  ghost predicate Keyed(steps: StepMap) {
    forall k :: k in steps ==> steps[k].session == k.0 && steps[k].seqNo == k.1 && steps[k].Sound()
  }

  /** Every blob is what its name says. */
  predicate Honest(blobs: BlobStore) {
    forall h :: h in blobs ==> Sha(blobs[h]) == h
  }

  /** The blobs the recorded steps need. */
  function Referenced(steps: StepMap): (hs: set<Hex>) {
    set k, i | k in steps && 0 <= i < |steps[k].entries| && steps[k].entries[i].before.WasFile?
      :: steps[k].entries[i].before.blob
  }

  /** Every recorded step can be undone from the blobs. */
  ghost predicate Covered(steps: StepMap, blobs: BlobStore) {
    Referenced(steps) <= blobs.Keys
  }

  /** The sizes kept in memory. */
  predicate Sizes(blobs: map<Hex, nat>, onDisk: BlobStore) {
    blobs.Keys == onDisk.Keys && forall h :: h in blobs ==> blobs[h] == |h.content|
  }

  /** Per session the kept steps are exactly the numbers above `floor` up to the last one given out, and
      no pruned number is above the floor. */
  ghost predicate Numbered(steps: StepMap, metas: MetaMap, floor: map<SessionId, nat>) {
    && floor.Keys == metas.Keys
    && (forall sid :: sid in metas ==> metas[sid].prunedThrough <= floor[sid] <= metas[sid].lastSeq)
    && (forall k: Key :: k in steps <==> k.0 in metas && floor[k.0] < k.1 <= metas[k.0].lastSeq)
  }

  /** The kept steps of a session are exactly the numbers given out above the pruned ones. */
  ghost predicate Exact(steps: StepMap, meta: SessionMeta, sid: SessionId) {
    forall n: nat :: (sid, n) in steps <==> meta.prunedThrough < n <= meta.lastSeq
  }

  /** No step is missing above the pruned ones, in any session. */
  ghost predicate NoneMissing(metas: MetaMap, floor: map<SessionId, nat>) {
    forall sid :: sid in metas ==> sid in floor && floor[sid] == metas[sid].prunedThrough
  }

  /** The floor is what the session has been pruned through just if its steps are exactly those above. */
  lemma ExactIs(steps: StepMap, metas: MetaMap, floor: map<SessionId, nat>, sid: SessionId)
    requires Numbered(steps, metas, floor)
    ensures Exact(steps, MetaOf(metas, sid), sid) <==> (sid in metas ==> floor[sid] == metas[sid].prunedThrough)
  {
    var meta := MetaOf(metas, sid);
    assert forall n: nat :: (sid, n) in steps <==> sid in metas && floor[sid] < n <= meta.lastSeq;
    if sid in metas && Exact(steps, meta, sid) && meta.prunedThrough < meta.lastSeq {
      assert (sid, meta.prunedThrough + 1) in steps;
    }
  }

  lemma NoneMissingIs(steps: StepMap, metas: MetaMap, floor: map<SessionId, nat>)
    requires Numbered(steps, metas, floor)
    ensures NoneMissing(metas, floor) <==> forall sid :: Exact(steps, MetaOf(metas, sid), sid)
  {
    forall sid ensures Exact(steps, MetaOf(metas, sid), sid) <==> (sid in metas ==> floor[sid] == metas[sid].prunedThrough) {
      ExactIs(steps, metas, floor, sid);
    }
    if forall sid :: Exact(steps, MetaOf(metas, sid), sid) {
      forall sid | sid in metas ensures floor[sid] == metas[sid].prunedThrough {
        assert Exact(steps, MetaOf(metas, sid), sid);
      }
    }
  }

  /** The session records on disk are those in memory, except that after a crash a record may lack the
      last number, which the newest kept step still shows. */
  ghost predicate MetasAgree(metas: MetaMap, floor: map<SessionId, nat>, onDisk: MetaMap)
    requires floor.Keys == metas.Keys
  {
    && onDisk.Keys <= metas.Keys
    && forall sid :: sid in metas ==> MetaAgrees(metas[sid], floor[sid], MetaOf(onDisk, sid))
  }

  predicate MetaAgrees(meta: SessionMeta, floor: nat, onDisk: SessionMeta) {
    && onDisk.lastUsed == meta.lastUsed && onDisk.prunedThrough == meta.prunedThrough <= onDisk.lastSeq
    && (onDisk.lastSeq == meta.lastSeq || (onDisk.lastSeq < meta.lastSeq && floor < meta.lastSeq))
  }

  /** The paths in flight are those of the prepared steps, no path in two of them. */
  ghost predicate InFlightParts(steps: StepMap, busy: set<Path>) {
    && (forall k :: k in steps && steps[k].status == Prepared ==> steps[k].Paths() <= busy)
    && (forall p :: p in busy ==> exists k :: k in steps && steps[k].status == Prepared && p in steps[k].Paths())
    && (forall j, k :: j in steps && k in steps && j != k && steps[j].status == Prepared && steps[k].status == Prepared ==>
          steps[j].Paths() !! steps[k].Paths())
  }

  /** The steps and records on disk are those of a store whose memory was `metas`. */
  ghost predicate Fits(steps: StepMap, onDisk: MetaMap, metas: MetaMap, floor: map<SessionId, nat>) {
    Numbered(steps, metas, floor) && MetasAgree(metas, floor, onDisk)
  }

  ghost predicate RecoverableParts(d: Disk) {
    && Keyed(d.steps) && Honest(d.blobs) && Covered(d.steps, d.blobs)
    && exists metas, floor :: Fits(d.steps, d.metas, metas, floor)
  }

  predicate Ticks(metas: MetaMap, tick: nat) {
    forall sid :: sid in metas ==> metas[sid].lastUsed <= tick
  }

  ghost predicate SaneParts(
      steps: StepMap, metas: MetaMap, blobs: map<Hex, nat>, tick: nat, floor: map<SessionId, nat>, disk: Disk)
  {
    && steps == disk.steps && Keyed(steps) && Covered(steps, disk.blobs)
    && Honest(disk.blobs) && Sizes(blobs, disk.blobs)
    && Fits(steps, disk.metas, metas, floor)
    && Ticks(metas, tick)
  }

  // ----- The invariants, closed -----------------------------------------------------------------------------
  //
  // Most proofs only pass an invariant on. They see it as a quantifier that nothing instantiates until
  // `Inside` is mentioned.

  ghost predicate Inside<T>(x: T) {
    true
  }

  /** What holds of memory and disk between two operations. */
  ghost predicate Sane(
      steps: StepMap, metas: MetaMap, blobs: map<Hex, nat>, tick: nat, floor: map<SessionId, nat>, disk: Disk)
  {
    forall d: Disk {:trigger Inside(d)} :: d == disk ==> SaneParts(steps, metas, blobs, tick, floor, d)
  }

  /** What every disk state must satisfy for the store to recover from it: a crash may come between any
      two writes. */
  ghost predicate Recoverable(disk: Disk) {
    forall d: Disk {:trigger Inside(d)} :: d == disk ==> RecoverableParts(d)
  }

  /** What holds of the paths in flight. */
  ghost predicate InFlight(steps: StepMap, busy: set<Path>) {
    forall b: set<Path> {:trigger Inside(b)} :: b == busy ==> InFlightParts(steps, b)
  }

  lemma LookInside(
      steps: StepMap, metas: MetaMap, blobs: map<Hex, nat>, tick: nat, floor: map<SessionId, nat>, disk: Disk)
    requires Sane(steps, metas, blobs, tick, floor, disk)
    ensures SaneParts(steps, metas, blobs, tick, floor, disk)
  {
    assert Inside(disk);
  }

  lemma LookInsideFlight(steps: StepMap, busy: set<Path>)
    requires InFlight(steps, busy)
    ensures InFlightParts(steps, busy)
  {
    assert Inside(busy);
  }

  lemma SaneIsRecoverable(
      steps: StepMap, metas: MetaMap, blobs: map<Hex, nat>, tick: nat, floor: map<SessionId, nat>, disk: Disk)
    requires Sane(steps, metas, blobs, tick, floor, disk)
    ensures Recoverable(disk)
  {
    LookInside(steps, metas, blobs, tick, floor, disk);
    assert RecoverableParts(disk);
  }

  // ----- Sums of sizes -----------------------------------------------------------------------------------

  /** The bytes these blobs take. */
  ghost function Total(hs: set<Hex>): (t: nat)
    decreases |hs|
  {
    if hs == {} then 0 else
      var h :| h in hs;
      |h.content| + Total(hs - {h})
  }

  lemma {:induction false} TotalWithout(hs: set<Hex>, h: Hex)
    requires h in hs
    ensures Total(hs) == |h.content| + Total(hs - {h})
    decreases |hs|
  {
    var g :| g in hs && Total(hs) == |g.content| + Total(hs - {g});
    if g != h {
      TotalWithout(hs - {g}, h);
      TotalWithout(hs - {h}, g);
      assert hs - {g} - {h} == hs - {h} - {g};
    }
  }

  lemma TotalWith(hs: set<Hex>, h: Hex)
    requires h !in hs
    ensures Total(hs + {h}) == |h.content| + Total(hs)
  {
    TotalWithout(hs + {h}, h);
    assert hs + {h} - {h} == hs;
  }

  lemma {:induction false} TotalOfBoth(a: set<Hex>, b: set<Hex>)
    requires a !! b
    ensures Total(a + b) == Total(a) + Total(b)
    decreases |b|
  {
    if b == {} {
      assert a + b == a;
    } else {
      var h :| h in b;
      TotalOfBoth(a, b - {h});
      TotalWithout(b, h);
      TotalWithout(a + b, h);
      assert a + b - {h} == a + (b - {h});
    }
  }

  // ----- Which step is evicted ----------------------------------------------------------------------------

  /** The oldest kept step of its session. */
  ghost predicate Oldest(steps: StepMap, k: Key) {
    k in steps && forall j :: j in steps && j.0 == k.0 ==> k.1 <= j.1
  }

  /** May be evicted: the oldest of its session, and not in flight. */
  ghost predicate Evictable(steps: StepMap, k: Key) {
    Oldest(steps, k) && steps[k].status != Prepared
  }

  /** The step could be evicted: it is not in flight, and no kept step of its session has a smaller number. */
  ghost predicate CouldGo(steps: StepMap, k: Key) {
    && k in steps && (steps[k].status == Committed || steps[k].status == Interrupted || steps[k].status == Undone)
    && forall n: nat :: (k.0, n) in steps ==> k.1 <= n
  }

  lemma CouldGoExactly(steps: StepMap, k: Key)
    ensures Evictable(steps, k) <==> CouldGo(steps, k)
  {
    if CouldGo(steps, k) {
      forall j | j in steps && j.0 == k.0 ensures k.1 <= j.1 {
        assert (k.0, j.1) in steps;
      }
    }
  }

  predicate UsedBefore(metas: MetaMap, j: Key, k: Key) {
    var a, b := MetaOf(metas, j.0).lastUsed, MetaOf(metas, k.0).lastUsed;
    a < b || (a == b && j.0 <= k.0)
  }

  // ----- Uses ----------------------------------------------------------------------------------------------

  /** When the session was last used, by the clock of the store; 0 if it never was. */
  function LastUse(metas: MetaMap, sid: SessionId): (n: nat) {
    MetaOf(metas, sid).lastUsed
  }

  ghost predicate SameUses(before: MetaMap, after: MetaMap) {
    forall sid :: LastUse(after, sid) == LastUse(before, sid)
  }

  /** The session has been used, later than any other ever was. */
  ghost predicate UsedNext(before: MetaMap, after: MetaMap, sid: SessionId) {
    && (forall s :: s != sid ==> LastUse(after, s) == LastUse(before, s))
    && (forall s :: LastUse(before, s) < LastUse(after, sid))
  }

  ghost predicate UsesFollow(before: MetaMap, after: MetaMap) {
    SameUses(before, after) || exists sid :: UsedNext(before, after, sid)
  }

  lemma TouchIsUse(
      steps: StepMap, metas: MetaMap, blobs: map<Hex, nat>, tick: nat, floor: map<SessionId, nat>, disk: Disk,
      sid: SessionId)
    requires Sane(steps, metas, blobs, tick, floor, disk)
    ensures var meta := MetaOf(metas, sid).(lastUsed := tick + 1);
            UsedNext(metas, metas[sid := meta], sid) && UsedNext(disk.metas, disk.metas[sid := meta], sid)
  {
    LookInside(steps, metas, blobs, tick, floor, disk);
    UsesOnDisk(steps, metas, blobs, tick, floor, disk);
    forall s ensures LastUse(metas, s) <= tick {
    }
  }

  /** Memory and disk agree about uses. */
  lemma UsesOnDisk(
      steps: StepMap, metas: MetaMap, blobs: map<Hex, nat>, tick: nat, floor: map<SessionId, nat>, disk: Disk)
    requires Sane(steps, metas, blobs, tick, floor, disk)
    ensures SameUses(metas, disk.metas)
  {
    LookInside(steps, metas, blobs, tick, floor, disk);
    forall s ensures LastUse(disk.metas, s) == LastUse(metas, s) {
      if s in metas {
        assert MetaAgrees(metas[s], floor[s], MetaOf(disk.metas, s));
      }
    }
  }

  /** The one `prune_to_fit` picks: of the least recently used session. */
  ghost predicate IsVictim(steps: StepMap, metas: MetaMap, k: Key) {
    Evictable(steps, k) && forall j :: Evictable(steps, j) ==> UsedBefore(metas, k, j)
  }

  /** Two sessions' last uses, and for equal ones their names, decide which of their steps goes first. */
  predicate GoesFirst(metas: MetaMap, sid: SessionId, other: SessionId) {
    var a, b := MetaOf(metas, sid), MetaOf(metas, other);
    a.lastUsed < b.lastUsed || (a.lastUsed == b.lastUsed && sid < other)
  }

  /** A step is the victim exactly when it may be evicted and its session goes before every other session with a step
      that may be; there is one at most. */
  lemma VictimIsUnique(steps: StepMap, metas: MetaMap, k: Key)
    ensures IsVictim(steps, metas, k) <==>
              Evictable(steps, k) && forall j :: Evictable(steps, j) && j != k ==> GoesFirst(metas, k.0, j.0)
    ensures IsVictim(steps, metas, k) ==> forall j :: IsVictim(steps, metas, j) ==> j == k
  {
    forall j | Evictable(steps, j) && Evictable(steps, k) && j.0 == k.0 ensures j == k {
    }
    if IsVictim(steps, metas, k) {
      forall j | Evictable(steps, j) && j != k ensures GoesFirst(metas, k.0, j.0) {
        assert UsedBefore(metas, k, j);
      }
      forall j | IsVictim(steps, metas, j) ensures j == k {
        assert UsedBefore(metas, j, k) && UsedBefore(metas, k, j);
      }
    }
  }

  /** What eviction works on. */
  datatype Kept = Kept(steps: StepMap, metas: MetaMap, blobs: set<Hex>)

  /** Evicts one step, records how far its session is pruned, and drops the blobs nothing needs. */
  function Evict(c: Kept, k: Key): (r: Kept) {
    var steps, meta := c.steps - {k}, MetaOf(c.metas, k.0);
    var through := if meta.prunedThrough < k.1 then k.1 else meta.prunedThrough;
    Kept(steps, c.metas[k.0 := meta.(prunedThrough := through)], c.blobs * Referenced(steps))
  }

  function EvictAll(c: Kept, ks: seq<Key>): (r: Kept)
    decreases |ks|
  {
    if ks == [] then c else EvictAll(Evict(c, ks[0]), ks[1..])
  }

  /** Each eviction was needed and took the step it should. */
  ghost predicate Justified(c: Kept, ks: seq<Key>, needed: nat, cap: nat)
    decreases |ks|
  {
    ks != [] ==>
      && Total(c.blobs) + needed > cap
      && IsVictim(c.steps, c.metas, ks[0])
      && Justified(Evict(c, ks[0]), ks[1..], needed, cap)
  }

  lemma {:induction false} EvictOneMore(c: Kept, ks: seq<Key>, k: Key, needed: nat, cap: nat)
    requires Justified(c, ks, needed, cap)
    requires Total(EvictAll(c, ks).blobs) + needed > cap && IsVictim(EvictAll(c, ks).steps, EvictAll(c, ks).metas, k)
    ensures Justified(c, ks + [k], needed, cap)
    ensures EvictAll(c, ks + [k]) == Evict(EvictAll(c, ks), k)
    decreases |ks|
  {
    if ks == [] {
      assert ks + [k] == [k] && [k][1..] == [];
    } else {
      assert (ks + [k])[1..] == ks[1..] + [k];
      EvictOneMore(Evict(c, ks[0]), ks[1..], k, needed, cap);
    }
  }

  /** Pruning is determined: what is evicted does not depend on the order sessions are looked at. */
  lemma {:induction false} PruningIsDetermined(c: Kept, ks: seq<Key>, js: seq<Key>, needed: nat, cap: nat)
    requires Justified(c, ks, needed, cap) && Justified(c, js, needed, cap) && |ks| <= |js|
    ensures ks <= js
    decreases |ks|
  {
    if ks != [] {
      VictimIsUnique(c.steps, c.metas, ks[0]);
      PruningIsDetermined(Evict(c, ks[0]), ks[1..], js[1..], needed, cap);
      assert ks == [ks[0]] + ks[1..] && js == [js[0]] + js[1..];
    }
  }

  /** No step in flight is evicted, and what is kept is kept unchanged. */
  lemma {:induction false} EvictionsSpareInFlight(c: Kept, ks: seq<Key>, needed: nat, cap: nat)
    requires Justified(c, ks, needed, cap)
    ensures var r := EvictAll(c, ks);
            && (forall k :: k in r.steps ==> k in c.steps && r.steps[k] == c.steps[k])
            && (forall k :: k in c.steps && c.steps[k].status == Prepared ==> k in r.steps)
            && (forall k :: k in c.steps && k !in r.steps ==> k in ks)
    decreases |ks|
  {
    if ks != [] {
      EvictionsSpareInFlight(Evict(c, ks[0]), ks[1..], needed, cap);
    }
  }
}
