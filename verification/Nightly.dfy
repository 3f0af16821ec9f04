/** The nightly job (`agent-anchor/src/nightly.rs`). */
module Nightly {
  // Its decisions over a log that grows and is pruned.

  import opened Wrappers
  import opened Merkle
  import opened Batch
  import opened Ledger

  /** What `retained_leaves` reports of a log whose chain verifies. */
  datatype Retained = Retained(leaves: seq<RetainedLeaf>, prunedThroughMs: Option<u64>) {
    /** Records of `day` may be missing. */
    predicate Partial(day: u64) {
      prunedThroughMs.Some? && UtcDay(prunedThroughMs.value) >= day
    }
  }

  datatype NightlyPlan =
    | Empty(day: u64)
    | Pruned(day: u64)
    | IncompleteDay(day: u64, retained: u64)
    | Ready(header: BatchHeader, commitment: Digest, newlyRecorded: bool)
    | AlreadyAnchored(entry: LedgerEntry)

  type Planned = Result<NightlyPlan, AnchorError>

  /** What `plan_day` answers and leaves on disk. */
  function PlanOf(ret: Retained, f: LedgerFile, day: u64, nowMs: u64, registryOk: bool): (p: (Planned, LedgerFile))
    requires |ret.leaves| < TWO_64
  {
    if day >= UtcDay(nowMs) then (Err(DayNotClosed(day, UtcDay(nowMs))), f)
    else if !registryOk then (Err(BadCalldata), f)
    else if !Loadable(f) then (Err(Corrupt), f)
    else
      match FindDay(f.entries, day)
      case Some(e) =>
        if e.confirmed.Some? then (Ok(AlreadyAnchored(e)), f)
        else if e.status == Incomplete then (Ok(IncompleteDay(day, e.count)), f)
        else PlanRecorded(ret, f, day, e)
      case None => PlanNew(ret, f, day, nowMs)
  }

  /** A day already batched: rechecked against the records when they are all still there. */
  function PlanRecorded(ret: Retained, f: LedgerFile, day: u64, e: LedgerEntry): (p: (Planned, LedgerFile))
    requires |ret.leaves| < TWO_64
  {
    var ls := DayLeaves(day, ret.leaves);
    if !Contiguous(ls) then (Err(GapError(day, ls)), f)
    else if e.Header().None? then (Err(Corrupt), f)
    else
      var h := e.Header().value;
      if ls != [] && !ret.Partial(day) && HeaderOver(day, ls).Commitment() != h.Commitment() then
        (Err(Conflict(day)), f)
      else (Ok(Ready(h, h.Commitment(), false)), f)
  }

  function PlanNew(ret: Retained, f: LedgerFile, day: u64, nowMs: u64): (p: (Planned, LedgerFile))
    requires |ret.leaves| < TWO_64
  {
    var ls := DayLeaves(day, ret.leaves);
    if !Contiguous(ls) then (Err(GapError(day, ls)), f)
    else if ls == [] then (Ok(if ret.Partial(day) then Pruned(day) else Empty(day)), f)
    else
      var h := HeaderOver(day, ls);
      if ret.Partial(day) then
        var (r, g) := RecordedIncomplete(f, day, h.firstSeq, h.lastSeq, nowMs);
        (if r.Err? then Err(r.error) else Ok(IncompleteDay(day, h.count)), g)
      else
        var (r, g) := RecordedBatched(f, h, nowMs);
        (if r.Err? then Err(r.error) else Ok(Ready(h, h.Commitment(), true)), g)
  }

  /** Plans one closed day, recording its batch or its incomplete report. */
  method PlanDay(ret: Retained, ledger: AnchorLedger, day: u64, nowMs: u64, registryOk: bool) returns (p: Planned)
    requires |ret.leaves| < TWO_64
    modifies ledger
    ensures (p, ledger.file) == PlanOf(ret, old(ledger.file), day, nowMs, registryOk)
  {
    var today := UtcDay(nowMs);
    if day >= today {
      return Err(DayNotClosed(day, today));
    }
    if !registryOk {
      return Err(BadCalldata);
    }
    var loaded := ledger.Load();
    if loaded.Err? {
      return Err(Corrupt);
    }
    var existing := FindDay(loaded.value, day);
    if existing.Some? {
      if existing.value.confirmed.Some? {
        return Ok(AlreadyAnchored(existing.value));
      }
      if existing.value.status == Incomplete {
        return Ok(IncompleteDay(day, existing.value.count));
      }
    }
    var partial := ret.Partial(day);
    var built := BuildDayBatch(day, ret.leaves);
    if built.Err? {
      return Err(built.error);
    }
    var batch := built.value;
    assert existing.Some? ==> existing.value.Checks();
    if existing.Some? && existing.value.Header().Some? {
      var header := existing.value.Header().value;
      if batch.Some? && !partial && batch.value.header.Commitment() != header.Commitment() {
        return Err(Conflict(day));
      }
      return Ok(Ready(header, header.Commitment(), false));
    }
    if batch.None? {
      return Ok(if partial then Pruned(day) else Empty(day));
    }
    var h := batch.value.header;
    if partial {
      var r := ledger.RecordIncomplete(day, h.firstSeq, h.lastSeq, nowMs);
      return if r.Err? then Err(r.error) else Ok(IncompleteDay(day, h.count));
    }
    var r := ledger.RecordBatched(h, nowMs);
    return if r.Err? then Err(r.error) else Ok(Ready(h, h.Commitment(), true));
  }

  // ----- The days still to plan --------------------------------------------------------------------

  /** Puts `day` in its place, once. */
  function InsertDay(days: seq<u64>, day: u64): (r: seq<u64>) {
    if days == [] || day < days[0] then [day] + days
    else if day == days[0] then days
    else [days[0]] + InsertDay(days[1..], day)
  }

  function PendingAmong(ls: seq<RetainedLeaf>, f: LedgerFile, today: u64): (days: seq<u64>) {
    if ls == [] then [] else
      var rest, day := PendingAmong(ls[..|ls| - 1], f, today), UtcDay(ls[|ls| - 1].tsMs);
      if day < today && FindDay(f.entries, day).None? then InsertDay(rest, day) else rest
  }

  /** Closed days with retained records and no ledger entry, oldest first. */
  function PendingDays(ret: Retained, f: LedgerFile, nowMs: u64): (days: seq<u64>) {
    PendingAmong(ret.leaves, f, UtcDay(nowMs))
  }

  /** The moment is of UTC day `day`, by the milliseconds of the day. */
  predicate OnDay(tsMs: u64, day: u64) {
    day * 86_400_000 <= tsMs < (day + 1) * 86_400_000
  }

  /** The last millisecond of the day is over. */
  predicate DayOver(day: u64, nowMs: u64) {
    (day + 1) * 86_400_000 <= nowMs
  }

  ghost predicate HasEntry(f: LedgerFile, day: u64) {
    exists e :: e in f.entries && e.day == day
  }

  /** What `pending_days` is for, day by day: over, with a record of it still there, and no entry. */
  ghost predicate StillToPlan(ls: seq<RetainedLeaf>, f: LedgerFile, nowMs: u64, day: u64) {
    DayOver(day, nowMs) && !HasEntry(f, day) && exists l :: l in ls && OnDay(l.tsMs, day)
  }

  predicate OldestFirst(days: seq<u64>) {
    forall i, j :: 0 <= i < j < |days| ==> days[i] < days[j]
  }

  lemma {:induction false} InsertDayIs(days: seq<u64>, day: u64)
    requires OldestFirst(days)
    ensures OldestFirst(InsertDay(days, day))
    ensures forall d :: d in InsertDay(days, day) <==> d in days || d == day
    decreases |days|
  {
    if days != [] && day > days[0] {
      InsertDayIs(days[1..], day);
      var r := InsertDay(days[1..], day);
      assert days == [days[0]] + days[1..];
      forall i | 0 <= i < |r| ensures days[0] < r[i] {
        assert r[i] in r;
      }
    }
  }

  lemma UtcDayIs(tsMs: u64, day: u64)
    ensures UtcDay(tsMs) == day <==> OnDay(tsMs, day)
    ensures day < UtcDay(tsMs) <==> DayOver(day, tsMs)
  {
  }

  /** One more record makes its own day a pending one, or none. */
  lemma OneMoreRecord(ls: seq<RetainedLeaf>, l: RetainedLeaf, f: LedgerFile, nowMs: u64, day: u64)
    ensures StillToPlan(ls + [l], f, nowMs, day) <==>
              StillToPlan(ls, f, nowMs, day) || (OnDay(l.tsMs, day) && DayOver(day, nowMs) && !HasEntry(f, day))
  {
    assert forall x :: x in ls + [l] <==> x in ls || x == l;
  }

  lemma {:induction false} PendingAmongAre(ls: seq<RetainedLeaf>, f: LedgerFile, nowMs: u64)
    ensures OldestFirst(PendingAmong(ls, f, UtcDay(nowMs)))
    ensures forall day :: day in PendingAmong(ls, f, UtcDay(nowMs)) <==> StillToPlan(ls, f, nowMs, day)
    decreases |ls|
  {
    if ls != [] {
      var init, l := ls[..|ls| - 1], ls[|ls| - 1];
      PendingAmongAre(init, f, nowMs);
      var rest, today := PendingAmong(init, f, UtcDay(nowMs)), UtcDay(l.tsMs);
      InsertDayIs(rest, today);
      UtcDayIs(nowMs, today);
      assert ls == init + [l];
      forall day ensures day in PendingAmong(ls, f, UtcDay(nowMs)) <==> StillToPlan(ls, f, nowMs, day) {
        UtcDayIs(l.tsMs, day);
        OneMoreRecord(init, l, f, nowMs, day);
        assert FindDay(f.entries, today).None? <==> !HasEntry(f, today);
      }
    }
  }

  /** The list is every day that is over, has a retained record and has no entry; each once, oldest first. */
  lemma PendingDaysAre(ret: Retained, f: LedgerFile, nowMs: u64)
    ensures OldestFirst(PendingDays(ret, f, nowMs))
    ensures forall day :: day in PendingDays(ret, f, nowMs) <==> StillToPlan(ret.leaves, f, nowMs, day)
  {
    PendingAmongAre(ret.leaves, f, nowMs);
  }

  /** The first retained record `seq`. */
  function FindSeq(ls: seq<RetainedLeaf>, seqNo: u64): (l: Option<RetainedLeaf>)
    ensures l.Some? ==> l.value in ls && l.value.seqNo == seqNo
    ensures l.None? ==> forall x :: x in ls ==> x.seqNo != seqNo
  {
    if ls == [] then None else if ls[0].seqNo == seqNo then Some(ls[0]) else FindSeq(ls[1..], seqNo)
  }

  type Proved = Result<Option<AnchorProof>, AnchorError>

  /** An inclusion proof for record `seqNo`, rebuilt from the retained records. */
  method Prove(ret: Retained, ledger: AnchorLedger, seqNo: u64) returns (r: Proved)
    requires |ret.leaves| < TWO_64
    ensures FindSeq(ret.leaves, seqNo).None? ==> r == Ok(None)
    ensures FindSeq(ret.leaves, seqNo).Some? && Loadable(ledger.file) ==>
              ProvedRight(ret, ledger.file, FindSeq(ret.leaves, seqNo).value, r)
  {
    var found := FindSeq(ret.leaves, seqNo);
    if found.None? {
      return Ok(None);
    }
    var day := UtcDay(found.value.tsMs);
    var loaded := ledger.Load();
    if loaded.Err? {
      return Err(Corrupt);
    }
    var entry := FindDay(loaded.value, day);
    if entry.None? || entry.value.Header().None? {
      return Err(NotBatched(day));
    }
    var header := entry.value.Header().value;
    if ret.Partial(day) {
      return Err(PrunedDay(day));
    }
    var built := BuildDayBatch(day, ret.leaves);
    if built.Err? {
      return Err(built.error);
    }
    DayLeavesContain(day, ret.leaves, found.value);
    var b := built.value.value;
    if b.header != header {
      return Err(Conflict(day));
    }
    ghost var ls := DayLeaves(day, ret.leaves);
    ghost var k: nat :| k < |ls| && ls[k] == found.value;
    TreePathIsAuditPath(b.tree, b.leafData, seqNo - b.header.firstSeq);
    r := Ok(b.Proof(seqNo));
    AcceptedProofsAreTheBatchs(b, r.value.value);
  }

  /** `prove` either says why not, or returns a proof of that record that verifies against the
      commitment recorded for its day. */
  ghost predicate ProvedRight(ret: Retained, f: LedgerFile, leaf: RetainedLeaf, r: Proved)
    requires |ret.leaves| < TWO_64
  {
    var day := UtcDay(leaf.tsMs);
    var ls := DayLeaves(day, ret.leaves);
    match FindDay(f.entries, day)
    case None => r == Err(NotBatched(day))
    case Some(e) =>
      if e.Header().None? then r == Err(NotBatched(day))
      else if ret.Partial(day) then r == Err(PrunedDay(day))
      else if !Contiguous(ls) then r == Err(GapError(day, ls))
      else if ls == [] || HeaderOver(day, ls) != e.Header().value then r == Err(Conflict(day))
      else
        && r.Ok? && r.value.Some?
        && r.value.value.seqNo == leaf.seqNo
        && r.value.value.recordHash == leaf.hash
        && e.commitment.Some?
        && VerifyProof(r.value.value, e.commitment.value)
  }

  lemma {:induction false} DayLeavesContain(day: u64, leaves: seq<RetainedLeaf>, l: RetainedLeaf)
    ensures l in DayLeaves(day, leaves) <==> l in leaves && UtcDay(l.tsMs) == day
    decreases |leaves|
  {
    if leaves != [] {
      DayLeavesContain(day, leaves[..|leaves| - 1], l);
      assert leaves == leaves[..|leaves| - 1] + [leaves[|leaves| - 1]];
    }
  }
}
