/** The local anchor ledger (`agent-anchor/src/ledger.rs`): one file, rewritten whole, in which a day
    is recorded once and a record belongs to at most one day. */
module Ledger {
  import opened Wrappers
  import opened Merkle
  import opened Batch

  const LEDGER_VERSION: nat := 1

  datatype EntryStatus = Batched | Incomplete

  datatype Confirmation = Confirmation(txHash: string, blockNumber: u64, confirmedAtMs: u64)

  datatype RecordOutcome = New | Unchanged

  datatype LedgerEntry = LedgerEntry(
    day: u64, status: EntryStatus, firstSeq: u64, lastSeq: u64, count: u64,
    treeRoot: Option<Digest>, commitment: Option<Digest>, recordedAtMs: u64,
    confirmed: Option<Confirmation>)
  {
    /** The batch header of a batched day. */
    function Header(): (h: Option<BatchHeader>) {
      if status == Batched && treeRoot.Some? then
        Some(BatchHeader(BATCH_VERSION, day, firstSeq, lastSeq, count, treeRoot.value))
      else None
    }

    predicate Overlaps(first: u64, last: u64) {
      firstSeq <= last && first <= lastSeq
    }

    /** What an entry read from disk must satisfy. The subtraction from `count` wraps. */
    predicate Checks() {
      && firstSeq <= lastSeq
      && lastSeq - firstSeq == (count - 1) % TWO_64
      && match status
         case Batched =>
           && Header().Some?
           && Header().value.WellFormed()
           && commitment == Some(Header().value.Commitment())
         case Incomplete =>
           treeRoot.None? && commitment.None? && confirmed.None?
    }
  }

  datatype LedgerFile = LedgerFile(v: nat, entries: seq<LedgerEntry>)

  const EMPTY_FILE := LedgerFile(LEDGER_VERSION, [])

  predicate DaysIncrease(es: seq<LedgerEntry>) {
    forall i, j :: 0 <= i < j < |es| ==> es[i].day < es[j].day
  }

  predicate RangesDisjoint(es: seq<LedgerEntry>) {
    forall i, j :: 0 <= i < j < |es| ==> !es[j].Overlaps(es[i].firstSeq, es[i].lastSeq)
  }

  /** The file is one the ledger agrees to open. */
  predicate Loadable(f: LedgerFile) {
    && f.v == LEDGER_VERSION
    && DaysIncrease(f.entries)
    && RangesDisjoint(f.entries)
    && forall i :: 0 <= i < |f.entries| ==> f.entries[i].Checks()
  }

  /** The first entry of `day`. */
  function FindDay(es: seq<LedgerEntry>, day: u64): (e: Option<LedgerEntry>)
    ensures e.Some? ==> e.value in es && e.value.day == day
    ensures e.None? ==> forall x :: x in es ==> x.day != day
  {
    if es == [] then None else if es[0].day == day then Some(es[0]) else FindDay(es[1..], day)
  }

  /** The first entry that claims a record of `first..=last`. */
  function FindOverlap(es: seq<LedgerEntry>, first: u64, last: u64): (e: Option<LedgerEntry>)
    ensures e.Some? ==> e.value in es && e.value.Overlaps(first, last)
    ensures e.None? ==> forall x :: x in es ==> !x.Overlaps(first, last)
  {
    if es == [] then None else if es[0].Overlaps(first, last) then Some(es[0]) else FindOverlap(es[1..], first, last)
  }

  /** Puts `e` behind the entries of its day or before: one step of a stable sort by day. */
  function InsertByDay(es: seq<LedgerEntry>, e: LedgerEntry): (r: seq<LedgerEntry>)
    ensures |r| == |es| + 1
  {
    if es == [] || es[|es| - 1].day <= e.day then es + [e]
    else InsertByDay(es[..|es| - 1], e) + [es[|es| - 1]]
  }

  lemma {:induction false} InsertByDayAddsOne(es: seq<LedgerEntry>, e: LedgerEntry, x: LedgerEntry)
    ensures x in InsertByDay(es, e) <==> x in es || x == e
    decreases |es|
  {
    if es != [] && es[|es| - 1].day > e.day {
      InsertByDayAddsOne(es[..|es| - 1], e, x);
      assert es == es[..|es| - 1] + [es[|es| - 1]];
    }
  }

  lemma {:induction false} InsertByDayKeepsOrder(es: seq<LedgerEntry>, e: LedgerEntry)
    requires DaysIncrease(es)
    requires forall x :: x in es ==> x.day != e.day
    ensures DaysIncrease(InsertByDay(es, e))
    decreases |es|
  {
    if es != [] && es[|es| - 1].day > e.day {
      var init, last := es[..|es| - 1], es[|es| - 1];
      InsertByDayKeepsOrder(init, e);
      var r := InsertByDay(init, e);
      forall i | 0 <= i < |r| ensures r[i].day < last.day {
        InsertByDayAddsOne(init, e, r[i]);
      }
    }
  }

  // ----- The operations on the file ---------------------------------------------------------------

  type Recorded = Result<RecordOutcome, AnchorError>

  /** What `insert` answers and leaves on disk, for a file that loads. */
  function Inserted(f: LedgerFile, entry: LedgerEntry, same: LedgerEntry -> bool): (r: (Recorded, LedgerFile)) {
    match FindDay(f.entries, entry.day)
    case Some(e) => (if same(e) then Ok(Unchanged) else Err(Conflict(entry.day)), f)
    case None =>
      match FindOverlap(f.entries, entry.firstSeq, entry.lastSeq)
      case Some(o) => (Err(Overlap(entry.day, o.day)), f)
      case None => (Ok(New), f.(entries := InsertByDay(f.entries, entry)))
  }

  function BatchedEntry(h: BatchHeader, nowMs: u64): (e: LedgerEntry) {
    LedgerEntry(h.day, Batched, h.firstSeq, h.lastSeq, h.count, Some(h.treeRoot), Some(h.Commitment()), nowMs, None)
  }

  /** The addition wraps when the range is all of the 64-bit numbers. */
  function IncompleteEntry(day: u64, first: u64, last: u64, nowMs: u64): (e: LedgerEntry)
    requires first <= last
  {
    LedgerEntry(day, Incomplete, first, last, (last - first + 1) % TWO_64, None, None, nowMs, None)
  }

  function RecordedBatched(f: LedgerFile, h: BatchHeader, nowMs: u64): (r: (Recorded, LedgerFile)) {
    if !h.WellFormed() || !Loadable(f) then (Err(Corrupt), f)
    else Inserted(f, BatchedEntry(h, nowMs), (e: LedgerEntry) => e.status == Batched && e.commitment == Some(h.Commitment()))
  }

  function RecordedIncomplete(f: LedgerFile, day: u64, first: u64, last: u64, nowMs: u64): (r: (Recorded, LedgerFile)) {
    if last < first || !Loadable(f) then (Err(Corrupt), f)
    else Inserted(f, IncompleteEntry(day, first, last, nowMs), (e: LedgerEntry) => e.status == Incomplete)
  }

  /** Confirms the batched entry of `day` in place. */
  function ConfirmIn(es: seq<LedgerEntry>, day: u64, c: Confirmation): (r: (Recorded, seq<LedgerEntry>)) {
    if es == [] then (Err(NotBatched(day)), es)
    else if es[0].day == day && es[0].status == Batched then
      match es[0].confirmed
      case Some(was) =>
        (if was.txHash == c.txHash && was.blockNumber == c.blockNumber then Ok(Unchanged) else Err(Conflict(day)), es)
      case None => (Ok(New), [es[0].(confirmed := Some(c))] + es[1..])
    else
      var (r, rest) := ConfirmIn(es[1..], day, c);
      (r, [es[0]] + rest)
  }

  function Confirmed(f: LedgerFile, day: u64, c: Confirmation): (r: (Recorded, LedgerFile)) {
    if !Loadable(f) then (Err(Corrupt), f) else
      var (r, es) := ConfirmIn(f.entries, day, c);
      (r, f.(entries := es))
  }

  /** The ledger: the file is the whole state, read before and rewritten after every change. */
  class AnchorLedger {
    var file: LedgerFile

    constructor Open(onDisk: LedgerFile)
      requires Loadable(onDisk)
      ensures file == onDisk
    {
      file := onDisk;
    }

    /** Reads the file back, refusing one this ledger could not have written. */
    method Load() returns (r: Result<seq<LedgerEntry>, AnchorError>)
      ensures r.Ok? <==> Loadable(file)
      ensures r == if Loadable(file) then Ok(file.entries) else Err(Corrupt)
    {
      if file.v != LEDGER_VERSION {
        return Err(Corrupt);
      }
      var es := file.entries;
      var w := 0;
      while w + 1 < |es|
        invariant 0 <= w
        invariant forall a, b :: 0 <= a < b <= w && b < |es| ==> es[a].day < es[b].day
      {
        if es[w].day >= es[w + 1].day {
          assert !DaysIncrease(es);
          return Err(Corrupt);
        }
        w := w + 1;
      }
      for i := 0 to |es|
        invariant forall a :: 0 <= a < i ==> es[a].Checks()
        invariant forall a, b :: 0 <= a < i && a < b < |es| ==> !es[b].Overlaps(es[a].firstSeq, es[a].lastSeq)
      {
        if !es[i].Checks() {
          return Err(Corrupt);
        }
        var o := FindOverlap(es[i + 1..], es[i].firstSeq, es[i].lastSeq);
        if o.Some? {
          var k :| 0 <= k < |es[i + 1..]| && es[i + 1..][k] == o.value;
          assert es[i + 1 + k] == o.value;
          assert !RangesDisjoint(es);
          return Err(Corrupt);
        }
        forall b | i < b < |es| ensures !es[b].Overlaps(es[i].firstSeq, es[i].lastSeq) {
          assert es[b] == es[i + 1..][b - i - 1];
        }
      }
      return Ok(es);
    }

    method Insert(entry: LedgerEntry, same: LedgerEntry -> bool) returns (r: Recorded)
      modifies this
      ensures !Loadable(old(file)) ==> r == Err(Corrupt) && file == old(file)
      ensures Loadable(old(file)) ==> (r, file) == Inserted(old(file), entry, same)
    {
      var loaded := Load();
      if loaded.Err? {
        return Err(Corrupt);
      }
      var es := loaded.value;
      var recorded := FindDay(es, entry.day);
      if recorded.Some? {
        return if same(recorded.value) then Ok(Unchanged) else Err(Conflict(entry.day));
      }
      var o := FindOverlap(es, entry.firstSeq, entry.lastSeq);
      if o.Some? {
        return Err(Overlap(entry.day, o.value.day));
      }
      file := file.(entries := InsertByDay(es, entry));
      return Ok(New);
    }

    method RecordBatched(h: BatchHeader, nowMs: u64) returns (r: Recorded)
      modifies this
      ensures (r, file) == RecordedBatched(old(file), h, nowMs)
    {
      if !h.WellFormed() {
        return Err(Corrupt);
      }
      var commitment := h.Commitment();
      ghost var before := file;
      r := Insert(BatchedEntry(h, nowMs), (e: LedgerEntry) => e.status == Batched && e.commitment == Some(commitment));
      InsertedUsesOnlyTheAnswer(before, BatchedEntry(h, nowMs),
        (e: LedgerEntry) => e.status == Batched && e.commitment == Some(commitment),
        (e: LedgerEntry) => e.status == Batched && e.commitment == Some(h.Commitment()));
    }

    method RecordIncomplete(day: u64, first: u64, last: u64, nowMs: u64) returns (r: Recorded)
      modifies this
      ensures (r, file) == RecordedIncomplete(old(file), day, first, last, nowMs)
    {
      if last < first {
        return Err(Corrupt);
      }
      ghost var before := file;
      r := Insert(IncompleteEntry(day, first, last, nowMs), (e: LedgerEntry) => e.status == Incomplete);
      InsertedUsesOnlyTheAnswer(before, IncompleteEntry(day, first, last, nowMs),
        (e: LedgerEntry) => e.status == Incomplete, (e: LedgerEntry) => e.status == Incomplete);
    }

    /** Writes the confirmation of a batched day once. */
    method MarkConfirmed(day: u64, c: Confirmation) returns (r: Recorded)
      modifies this
      ensures (r, file) == Confirmed(old(file), day, c)
    {
      var loaded := Load();
      if loaded.Err? {
        return Err(Corrupt);
      }
      var es := loaded.value;
      for i := 0 to |es|
        invariant forall j :: 0 <= j < i ==> !(es[j].day == day && es[j].status == Batched)
      {
        var e := es[i];
        if e.day == day && e.status == Batched {
          ConfirmInSkips(es, i, day, c);
          if e.confirmed.Some? {
            assert es[..i] + es[i..] == es;
            if e.confirmed.value.txHash == c.txHash && e.confirmed.value.blockNumber == c.blockNumber {
              return Ok(Unchanged);
            }
            return Err(Conflict(day));
          }
          assert es[..i] + ([e.(confirmed := Some(c))] + es[i..][1..]) == es[i := e.(confirmed := Some(c))];
          file := file.(entries := es[i := e.(confirmed := Some(c))]);
          return Ok(New);
        }
      }
      ConfirmInSkips(es, |es|, day, c);
      assert es[..|es|] + [] == es;
      return Err(NotBatched(day));
    }
  }

  /** Entries that are not the batched entry of `day` are passed over. */
  lemma {:induction false} ConfirmInSkips(es: seq<LedgerEntry>, i: nat, day: u64, c: Confirmation)
    requires i <= |es|
    requires forall j :: 0 <= j < i ==> !(es[j].day == day && es[j].status == Batched)
    ensures ConfirmIn(es, day, c)
         == (ConfirmIn(es[i..], day, c).0, es[..i] + ConfirmIn(es[i..], day, c).1)
    decreases i
  {
    if i > 0 {
      ConfirmInSkips(es[1..], i - 1, day, c);
      var tail := ConfirmIn(es[i..], day, c);
      assert es[1..][i - 1..] == es[i..] && es[..i] == [es[0]] + es[1..][..i - 1];
      assert ConfirmIn(es, day, c) == (tail.0, [es[0]] + (es[1..][..i - 1] + tail.1));
      assert [es[0]] + (es[1..][..i - 1] + tail.1) == es[..i] + tail.1;
    } else {
      var tail := ConfirmIn(es, day, c);
      assert es[0..] == es && es[..0] + tail.1 == tail.1;
    }
  }

  lemma InsertedUsesOnlyTheAnswer(f: LedgerFile, entry: LedgerEntry, p: LedgerEntry -> bool, q: LedgerEntry -> bool)
    requires forall e :: p(e) == q(e)
    ensures Inserted(f, entry, p) == Inserted(f, entry, q)
  {
  }

  // ----- What every operation keeps ----------------------------------------------------------------

  /** An entry after some operations: the same, or confirmed where it was not. */
  predicate KeptEntry(e: LedgerEntry, later: LedgerEntry) {
    later == e || (e.confirmed.None? && e.status == Batched && later == e.(confirmed := later.confirmed))
  }

  /** Every recorded day is still recorded, with the same commitment and any written confirmation. */
  ghost predicate Keeps(f: LedgerFile, g: LedgerFile) {
    forall e :: e in f.entries ==> exists later :: later in g.entries && KeptEntry(e, later)
  }

  lemma KeepsTransitive(f: LedgerFile, g: LedgerFile, h: LedgerFile)
    requires Keeps(f, g) && Keeps(g, h)
    ensures Keeps(f, h)
  {
    forall e | e in f.entries ensures exists later :: later in h.entries && KeptEntry(e, later) {
      var m :| m in g.entries && KeptEntry(e, m);
      var later :| later in h.entries && KeptEntry(m, later);
      assert KeptEntry(e, later);
    }
  }

  /** Inserting a sound entry leaves a file that loads, and only adds. */
  lemma InsertedKeeps(f: LedgerFile, entry: LedgerEntry, same: LedgerEntry -> bool)
    requires Loadable(f) && entry.Checks()
    ensures var g := Inserted(f, entry, same).1;
            Loadable(g) && forall e :: e in f.entries ==> e in g.entries
  {
    var g := Inserted(f, entry, same).1;
    if g != f {
      InsertByDayKeepsOrder(f.entries, entry);
      var es := g.entries;
      forall x ensures x in es <==> x in f.entries || x == entry {
        InsertByDayAddsOne(f.entries, entry, x);
      }
      forall i | 0 <= i < |es| ensures es[i].Checks() {
        assert es[i] in es;
      }
      forall i, j | 0 <= i < j < |es| ensures !es[j].Overlaps(es[i].firstSeq, es[i].lastSeq) {
        DistinctEntriesDisjoint(f, entry, es[i], es[j]);
      }
    }
  }

  lemma DistinctEntriesDisjoint(f: LedgerFile, entry: LedgerEntry, a: LedgerEntry, b: LedgerEntry)
    requires Loadable(f) && FindOverlap(f.entries, entry.firstSeq, entry.lastSeq).None?
    requires (a in f.entries || a == entry) && (b in f.entries || b == entry) && a.day < b.day
    ensures !b.Overlaps(a.firstSeq, a.lastSeq)
  {
    if a in f.entries && b in f.entries {
      var i :| 0 <= i < |f.entries| && f.entries[i] == a;
      var j :| 0 <= j < |f.entries| && f.entries[j] == b;
      assert i < j;
    } else if a in f.entries {
      assert !a.Overlaps(entry.firstSeq, entry.lastSeq);
    } else {
      assert a == entry;
    }
  }

  lemma {:induction false} ConfirmInKeeps(es: seq<LedgerEntry>, day: u64, c: Confirmation)
    ensures var out := ConfirmIn(es, day, c).1;
            |out| == |es| && forall i :: 0 <= i < |es| ==> KeptEntry(es[i], out[i])
    decreases |es|
  {
    if es != [] && !(es[0].day == day && es[0].status == Batched) {
      ConfirmInKeeps(es[1..], day, c);
    }
  }

  /** One operation of the ledger. */
  datatype LedgerOp =
    | OpBatched(header: BatchHeader, nowMs: u64)
    | OpIncomplete(day: u64, first: u64, last: u64, atMs: u64)
    | OpConfirm(confirmDay: u64, c: Confirmation)

  function Apply(f: LedgerFile, op: LedgerOp): (r: (Recorded, LedgerFile)) {
    match op
    case OpBatched(h, now) => RecordedBatched(f, h, now)
    case OpIncomplete(day, first, last, now) => RecordedIncomplete(f, day, first, last, now)
    case OpConfirm(day, c) => Confirmed(f, day, c)
  }

  function ApplyAll(f: LedgerFile, ops: seq<LedgerOp>): (g: LedgerFile)
    decreases |ops|
  {
    if ops == [] then f else ApplyAll(Apply(f, ops[0]).1, ops[1..])
  }

  lemma WrappedCountChecks(first: u64, last: u64)
    requires first <= last
    ensures ((last - first + 1) % TWO_64 - 1) % TWO_64 == last - first
  {
    var n := last - first + 1;
    if n < TWO_64 {
      assert n % TWO_64 == n;
    } else {
      assert n == TWO_64 && n % TWO_64 == 0;
      assert (-1) % TWO_64 == TWO_64 - 1;
    }
  }

  /** Any operation, with any arguments, on a file that loads leaves a file that loads and keeps
      every recorded day; a refused operation leaves the file as it was. */
  lemma ApplyKeeps(f: LedgerFile, op: LedgerOp)
    requires Loadable(f)
    ensures Loadable(Apply(f, op).1) && Keeps(f, Apply(f, op).1)
    ensures Apply(f, op).0 != Ok(New) ==> Apply(f, op).1 == f
  {
    assert forall e :: KeptEntry(e, e);
    match op {
      case OpBatched(h, now) =>
        if h.WellFormed() {
          InsertedKeeps(f, BatchedEntry(h, now), (e: LedgerEntry) => e.status == Batched && e.commitment == Some(h.Commitment()));
        }
      case OpIncomplete(day, first, last, now) =>
        if first <= last {
          WrappedCountChecks(first, last);
          InsertedKeeps(f, IncompleteEntry(day, first, last, now), (e: LedgerEntry) => e.status == Incomplete);
        }
      case OpConfirm(day, c) =>
        ConfirmKeeps(f, day, c);
    }
  }

  lemma {:induction false} RefusedConfirmChangesNothing(es: seq<LedgerEntry>, day: u64, c: Confirmation)
    ensures ConfirmIn(es, day, c).0 != Ok(New) ==> ConfirmIn(es, day, c).1 == es
    decreases |es|
  {
    if es != [] {
      RefusedConfirmChangesNothing(es[1..], day, c);
      assert es == [es[0]] + es[1..];
    }
  }

  lemma ConfirmKeeps(f: LedgerFile, day: u64, c: Confirmation)
    requires Loadable(f)
    ensures Loadable(Confirmed(f, day, c).1) && Keeps(f, Confirmed(f, day, c).1)
    ensures Confirmed(f, day, c).0 != Ok(New) ==> Confirmed(f, day, c).1 == f
  {
    ConfirmInKeeps(f.entries, day, c);
    RefusedConfirmChangesNothing(f.entries, day, c);
    var out := ConfirmIn(f.entries, day, c).1;
    forall e | e in f.entries ensures exists later :: later in out && KeptEntry(e, later) {
      var i :| 0 <= i < |f.entries| && f.entries[i] == e;
      assert KeptEntry(e, out[i]);
    }
    forall i | 0 <= i < |out| ensures out[i].Checks() {
      assert KeptEntry(f.entries[i], out[i]) && f.entries[i].Checks();
      assert out[i].Header() == f.entries[i].Header();
    }
  }

  /** From an empty file, after any operations at all, the ledger reloads: days strictly increase,
      no record is in two entries, every stored commitment is the recomputed one; and what was
      recorded along the way is never altered. */
  lemma {:induction false} EveryRunReloads(f: LedgerFile, ops: seq<LedgerOp>)
    requires Loadable(f)
    ensures Loadable(ApplyAll(f, ops)) && Keeps(f, ApplyAll(f, ops))
    decreases |ops|
  {
    if ops == [] {
      assert forall e :: KeptEntry(e, e);
    } else {
      var g := Apply(f, ops[0]).1;
      ApplyKeeps(f, ops[0]);
      EveryRunReloads(g, ops[1..]);
      KeepsTransitive(f, g, ApplyAll(g, ops[1..]));
    }
  }

  // ----- What the operations answer, said of records and days -------------------------------------------------

  predicate HasRecord(e: LedgerEntry, seqNo: nat) {
    e.firstSeq <= seqNo <= e.lastSeq
  }

  ghost predicate ShareRecord(a: LedgerEntry, b: LedgerEntry) {
    exists n: nat :: HasRecord(a, n) && HasRecord(b, n)
  }

  /** A batched day carries its root and the value that binds it; an incomplete one neither, nor a confirmation.
      Either counts its range, which wraps for the one range of all 64-bit numbers. */
  predicate PlainEntry(e: LedgerEntry) {
    && e.firstSeq <= e.lastSeq
    && match e.status
       case Batched =>
         && e.count == e.lastSeq - e.firstSeq + 1 && e.treeRoot.Some?
         && e.commitment == Some(CommitmentHash(1, e.day, e.firstSeq, e.lastSeq, e.count, e.treeRoot.value))
       case Incomplete =>
         && e.count == (e.lastSeq - e.firstSeq + 1) % 0x1_0000_0000_0000_0000
         && e.treeRoot == None && e.commitment == None && e.confirmed == None
  }

  lemma OverlapIsShared(a: LedgerEntry, b: LedgerEntry)
    requires a.firstSeq <= a.lastSeq && b.firstSeq <= b.lastSeq
    ensures b.Overlaps(a.firstSeq, a.lastSeq) <==> ShareRecord(a, b)
    ensures ShareRecord(a, b) <==> ShareRecord(b, a)
  {
    if b.Overlaps(a.firstSeq, a.lastSeq) {
      var n := if a.firstSeq < b.firstSeq then b.firstSeq else a.firstSeq;
      assert HasRecord(a, n) && HasRecord(b, n);
    }
  }

  lemma CountOfRange(first: u64, last: u64, count: u64)
    requires first <= last
    ensures last - first == (count - 1) % TWO_64 <==> count == (last - first + 1) % TWO_64
  {
    if count == 0 {
      assert (count - 1) % TWO_64 == TWO_64 - 1;
    }
  }

  lemma ChecksExactly(e: LedgerEntry)
    ensures e.Checks() <==> PlainEntry(e)
  {
    if e.firstSeq <= e.lastSeq {
      CountOfRange(e.firstSeq, e.lastSeq, e.count);
      if e.count > 0 {
        assert (e.count - 1) % TWO_64 == e.count - 1;
      }
    }
  }

  /** The files the ledger agrees to open: each day once and in order, each record in one entry at most, and every
      entry plainly what it says it is. */
  lemma LoadableExactly(f: LedgerFile)
    ensures Loadable(f) <==>
              && f.v == 1
              && (forall i, j :: 0 <= i < j < |f.entries| ==> f.entries[i].day < f.entries[j].day)
              && (forall i :: 0 <= i < |f.entries| ==> PlainEntry(f.entries[i]))
              && (forall i, j :: 0 <= i < j < |f.entries| ==> !ShareRecord(f.entries[i], f.entries[j]))
  {
    forall i | 0 <= i < |f.entries| ensures f.entries[i].Checks() <==> PlainEntry(f.entries[i]) {
      ChecksExactly(f.entries[i]);
    }
    if forall i :: 0 <= i < |f.entries| ==> PlainEntry(f.entries[i]) {
      forall i, j | 0 <= i < j < |f.entries|
        ensures f.entries[j].Overlaps(f.entries[i].firstSeq, f.entries[i].lastSeq) <==> ShareRecord(f.entries[i], f.entries[j])
      {
        OverlapIsShared(f.entries[i], f.entries[j]);
      }
    }
  }

  /** What recording an entry comes to; `again` says whether the day's entry already says the same. */
  ghost predicate Answered(f: LedgerFile, entry: LedgerEntry, again: bool, r: Recorded, g: LedgerFile) {
    if exists e :: e in f.entries && e.day == entry.day then
      g == f && r == if again then Ok(Unchanged) else Err(Conflict(entry.day))
    else if exists e :: e in f.entries && ShareRecord(e, entry) then
      g == f && exists e :: e in f.entries && ShareRecord(e, entry) && r == Err(Overlap(entry.day, e.day))
    else
      && r == Ok(New) && g.v == f.v && Loadable(g)
      && forall e :: e in g.entries <==> e in f.entries || e == entry
  }

  lemma OneEntryADay(f: LedgerFile, a: LedgerEntry, b: LedgerEntry)
    requires DaysIncrease(f.entries) && a in f.entries && b in f.entries && a.day == b.day
    ensures a == b
  {
    var i :| 0 <= i < |f.entries| && f.entries[i] == a;
    var j :| 0 <= j < |f.entries| && f.entries[j] == b;
    assert i == j;
  }

  lemma InsertedAnswers(f: LedgerFile, entry: LedgerEntry, same: LedgerEntry -> bool)
    requires Loadable(f) && entry.Checks()
    ensures Answered(f, entry, exists e :: e in f.entries && e.day == entry.day && same(e),
                     Inserted(f, entry, same).0, Inserted(f, entry, same).1)
  {
    match FindDay(f.entries, entry.day)
    case Some(found) =>
      forall e | e in f.entries && e.day == entry.day ensures e == found {
        OneEntryADay(f, e, found);
      }
    case None => NewEntryAnswers(f, entry, same);
  }

  lemma NewEntryAnswers(f: LedgerFile, entry: LedgerEntry, same: LedgerEntry -> bool)
    requires Loadable(f) && entry.Checks() && forall e :: e in f.entries ==> e.day != entry.day
    ensures var (r, g) := Inserted(f, entry, same);
            if exists e :: e in f.entries && ShareRecord(e, entry) then
              g == f && exists e :: e in f.entries && ShareRecord(e, entry) && r == Err(Overlap(entry.day, e.day))
            else
              && r == Ok(New) && g.v == f.v && Loadable(g)
              && forall e :: e in g.entries <==> e in f.entries || e == entry
  {
    forall e | e in f.entries ensures e.Overlaps(entry.firstSeq, entry.lastSeq) <==> ShareRecord(e, entry) {
      OverlapIsShared(entry, e);
    }
    if FindOverlap(f.entries, entry.firstSeq, entry.lastSeq).None? {
      InsertedKeeps(f, entry, same);
      forall e ensures e in Inserted(f, entry, same).1.entries <==> e in f.entries || e == entry {
        InsertByDayAddsOne(f.entries, entry, e);
      }
    }
  }

  /** The anchored value says which header it is. */
  lemma SameBatchIs(f: LedgerFile, h: BatchHeader)
    requires Loadable(f) && h.WellFormed()
    ensures forall e :: e in f.entries && e.day == h.day ==>
              (e.status == Batched && e.commitment == Some(h.Commitment()) <==> e.Header() == Some(h))
  {
    forall e | e in f.entries && e.day == h.day
      ensures e.status == Batched && e.commitment == Some(h.Commitment()) <==> e.Header() == Some(h)
    {
      assert e.Checks();
    }
  }

  /** Recording a batch: again is no change, another batch or an incomplete report of the day is a conflict, a
      shared record an overlap; otherwise one entry is added, with the header's values, its anchored value and
      the time, and not confirmed. */
  lemma RecordBatchedAnswers(f: LedgerFile, h: BatchHeader, nowMs: u64)
    requires Loadable(f) && h.WellFormed()
    ensures var (r, g) := RecordedBatched(f, h, nowMs);
            Answered(f, LedgerEntry(h.day, Batched, h.firstSeq, h.lastSeq, h.count, Some(h.treeRoot), Some(h.Commitment()), nowMs, None),
                     exists e :: e in f.entries && e.day == h.day && e.Header() == Some(h), r, g)
  {
    var same := (e: LedgerEntry) => e.status == Batched && e.commitment == Some(h.Commitment());
    SameBatchIs(f, h);
    InsertedAnswers(f, BatchedEntry(h, nowMs), same);
    InsertedUsesOnlyTheAnswer(f, BatchedEntry(h, nowMs), same,
                              (e: LedgerEntry) => e.status == Batched && e.commitment == Some(h.Commitment()));
  }

  /** Reporting a day incomplete: again is no change, whatever the range; a batched day is a conflict. */
  lemma RecordIncompleteAnswers(f: LedgerFile, day: u64, first: u64, last: u64, nowMs: u64)
    requires Loadable(f) && first <= last
    ensures var (r, g) := RecordedIncomplete(f, day, first, last, nowMs);
            Answered(f, LedgerEntry(day, Incomplete, first, last, (last - first + 1) % 0x1_0000_0000_0000_0000, None, None, nowMs, None),
                     exists e :: e in f.entries && e.day == day && e.status == Incomplete, r, g)
  {
    var same := (e: LedgerEntry) => e.status == Incomplete;
    WrappedCountChecks(first, last);
    InsertedAnswers(f, IncompleteEntry(day, first, last, nowMs), same);
    InsertedUsesOnlyTheAnswer(f, IncompleteEntry(day, first, last, nowMs), same, (e: LedgerEntry) => e.status == Incomplete);
  }

  ghost predicate BatchedAt(es: seq<LedgerEntry>, i: nat, day: u64) {
    i < |es| && es[i].day == day && es[i].status == Batched
  }

  lemma PutTogether(es: seq<LedgerEntry>, i: nat, e: LedgerEntry)
    requires i < |es|
    ensures es[..i] + es[i..] == es && es[..i] + ([e] + es[i..][1..]) == es[i := e]
  {
  }

  lemma ConfirmInAt(es: seq<LedgerEntry>, i: nat, day: u64, c: Confirmation)
    requires BatchedAt(es, i, day) && forall j :: 0 <= j < i ==> es[j].day != day
    ensures ConfirmIn(es, day, c) ==
              match es[i].confirmed
              case None => (Ok(New), es[i := es[i].(confirmed := Some(c))])
              case Some(was) =>
                (if (was.txHash, was.blockNumber) == (c.txHash, c.blockNumber) then Ok(Unchanged) else Err(Conflict(day)), es)
  {
    ConfirmInSkips(es, i, day, c);
    PutTogether(es, i, es[i].(confirmed := Some(c)));
  }

  lemma ConfirmInNone(es: seq<LedgerEntry>, day: u64, c: Confirmation)
    requires forall i: nat :: !BatchedAt(es, i, day)
    ensures ConfirmIn(es, day, c) == (Err(NotBatched(day)), es)
  {
    forall j | 0 <= j < |es| ensures !(es[j].day == day && es[j].status == Batched) {
      assert !BatchedAt(es, j, day);
    }
    ConfirmInSkips(es, |es|, day, c);
    assert es[..|es|] + [] == es;
  }

  /** Confirming a day: only a batched one, once; the same transaction and block again are no change, others a
      conflict. Nothing but the confirmation is written. */
  lemma ConfirmAnswers(f: LedgerFile, day: u64, c: Confirmation)
    requires Loadable(f)
    ensures var (r, g) := Confirmed(f, day, c);
            && ((forall i: nat :: !BatchedAt(f.entries, i, day)) ==> r == Err(NotBatched(day)) && g == f)
            && forall i: nat :: BatchedAt(f.entries, i, day) ==>
                 match f.entries[i].confirmed
                 case None => r == Ok(New) && g == f.(entries := f.entries[i := f.entries[i].(confirmed := Some(c))])
                 case Some(was) =>
                   && g == f
                   && r == if (was.txHash, was.blockNumber) == (c.txHash, c.blockNumber) then Ok(Unchanged) else Err(Conflict(day))
  {
    if forall i: nat :: !BatchedAt(f.entries, i, day) {
      ConfirmInNone(f.entries, day, c);
    }
    forall i: nat | BatchedAt(f.entries, i, day)
      ensures ConfirmIn(f.entries, day, c) ==
                match f.entries[i].confirmed
                case None => (Ok(New), f.entries[i := f.entries[i].(confirmed := Some(c))])
                case Some(was) =>
                  (if (was.txHash, was.blockNumber) == (c.txHash, c.blockNumber) then Ok(Unchanged) else Err(Conflict(day)), f.entries)
    {
      ConfirmInAt(f.entries, i, day, c);
    }
  }
}
