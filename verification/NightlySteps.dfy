/** The nightly job beside the decision log, one step at a time: records are appended, the oldest are
    pruned, the clock ticks, days are planned and anchors confirmed.

    The log is what `agent-records` guarantees: numbers without gaps, timestamps that do not decrease,
    pruning oldest first. What the ledger says about a day is then true of all records ever written on
    it (`EntryTrue`), whatever is still retained, and every step keeps that. It is the invariant all
    theorems about whole runs rest on. */
module NightlySteps {
  import opened Wrappers
  import opened Merkle
  import opened Batch
  import opened Ledger
  import opened Nightly

  /** The log (every record ever written, of which the first `pruned` are gone), the wall clock and
      the ledger's file. */
  datatype World = World(recs: seq<RetainedLeaf>, pruned: nat, nowMs: u64, file: LedgerFile) {
    function Kept(): (ret: Retained) {
      if pruned == 0 || pruned > |recs| then Retained(recs, None)
      else Retained(recs[pruned..], Some(recs[pruned - 1].tsMs))
    }

    /** Every record ever written on `day`. */
    function EverOn(day: u64): (ls: seq<RetainedLeaf>) {
      DayLeaves(day, recs)
    }

    function Plan(day: u64, registryOk: bool): (p: (Planned, LedgerFile))
      requires |recs| < TWO_64
    {
      PlanOf(Kept(), file, day, nowMs, registryOk)
    }
  }

  datatype Step =
    | Append(hash: Digest)
    | Prune(upTo: nat)
    | Tick(toMs: u64)
    | Plan(day: u64, registryOk: bool)
    | Confirm(confirmDay: u64, c: Confirmation)

  /** The next timestamp: the clock, never behind the last record. */
  function NextTs(w: World): (ts: u64) {
    if w.recs != [] && w.recs[|w.recs| - 1].tsMs > w.nowMs then w.recs[|w.recs| - 1].tsMs else w.nowMs
  }

  /** One step; a step that cannot happen leaves the world as it is. */
  function After(w: World, s: Step): (w': World) {
    match s
    case Append(hash) =>
      if |w.recs| + 1 >= TWO_64 then w
      else w.(recs := w.recs + [RetainedLeaf(|w.recs|, NextTs(w), hash)])
    case Prune(upTo) => if w.pruned <= upTo <= |w.recs| then w.(pruned := upTo) else w
    case Tick(toMs) => if w.nowMs <= toMs then w.(nowMs := toMs) else w
    case Plan(day, registryOk) => if |w.recs| < TWO_64 then w.(file := w.Plan(day, registryOk).1) else w
    case Confirm(day, c) => w.(file := Confirmed(w.file, day, c).1)
  }

  function Run(w: World, steps: seq<Step>): (w': World)
    decreases |steps|
  {
    if steps == [] then w else Run(After(w, steps[0]), steps[1..])
  }

  const START := World([], 0, 0, EMPTY_FILE)

  // ----- Days of an ordered log --------------------------------------------------------------------

  predicate Numbered(recs: seq<RetainedLeaf>) {
    |recs| < TWO_64 && forall i :: 0 <= i < |recs| ==> recs[i].seqNo == i
  }

  predicate TimesOrdered(recs: seq<RetainedLeaf>) {
    forall i, j :: 0 <= i <= j < |recs| ==> recs[i].tsMs <= recs[j].tsMs
  }

  lemma DaysOrdered(a: u64, b: u64)
    requires a <= b
    ensures UtcDay(a) <= UtcDay(b)
  {
  }

  lemma DayLeavesOfOneMore(day: u64, a: seq<RetainedLeaf>, l: RetainedLeaf)
    ensures DayLeaves(day, a + [l]) == if UtcDay(l.tsMs) == day then DayLeaves(day, a) + [l] else DayLeaves(day, a)
  {
    assert (a + [l])[..|a|] == a;
  }

  lemma OneMoreOnBoth<T>(a: seq<T>, b: seq<T>, x: T)
    ensures a + (b + [x]) == a + b + [x]
  {
  }

  lemma {:induction false} DayLeavesOfConcat(day: u64, a: seq<RetainedLeaf>, b: seq<RetainedLeaf>)
    ensures DayLeaves(day, a + b) == DayLeaves(day, a) + DayLeaves(day, b)
    decreases |b|
  {
    if b == [] {
      assert a + b == a;
    } else {
      var init, last := b[..|b| - 1], b[|b| - 1];
      assert b == init + [last];
      OneMoreOnBoth(a, init, last);
      DayLeavesOfConcat(day, a, init);
      DayLeavesOfOneMore(day, a + init, last);
      DayLeavesOfOneMore(day, init, last);
      OneMoreOnBoth(DayLeaves(day, a), DayLeaves(day, init), last);
    }
  }

  lemma {:induction false} NoLeavesOfDay(day: u64, ls: seq<RetainedLeaf>)
    requires forall i :: 0 <= i < |ls| ==> UtcDay(ls[i].tsMs) != day
    ensures DayLeaves(day, ls) == []
    decreases |ls|
  {
    if ls != [] {
      NoLeavesOfDay(day, ls[..|ls| - 1]);
    }
  }

  lemma {:induction false} AllLeavesOfDay(day: u64, ls: seq<RetainedLeaf>)
    requires forall i :: 0 <= i < |ls| ==> UtcDay(ls[i].tsMs) == day
    ensures DayLeaves(day, ls) == ls
    decreases |ls|
  {
    if ls != [] {
      AllLeavesOfDay(day, ls[..|ls| - 1]);
    }
  }

  lemma DayIsMiddle(day: u64, recs: seq<RetainedLeaf>, lo: nat, hi: nat)
    requires lo <= hi <= |recs|
    requires forall i :: 0 <= i < |recs| ==> (UtcDay(recs[i].tsMs) == day <==> lo <= i < hi)
    ensures DayLeaves(day, recs) == recs[lo..hi]
  {
    var a, m, c := recs[..lo], recs[lo..hi], recs[hi..];
    assert recs == a + (m + c);
    DayLeavesOfConcat(day, a, m + c);
    DayLeavesOfConcat(day, m, c);
    NoLeavesOfDay(day, a);
    AllLeavesOfDay(day, m);
    NoLeavesOfDay(day, c);
  }

  /** In an ordered log a day is one run of records. */
  lemma DayIsOneRun(day: u64, recs: seq<RetainedLeaf>) returns (lo: nat, hi: nat)
    requires TimesOrdered(recs)
    ensures lo <= hi <= |recs| && DayLeaves(day, recs) == recs[lo..hi]
  {
    lo, hi := 0, 0;
    while lo < |recs| && UtcDay(recs[lo].tsMs) < day
      invariant lo <= |recs|
      invariant forall i :: 0 <= i < lo ==> UtcDay(recs[i].tsMs) < day
    {
      lo := lo + 1;
    }
    hi := lo;
    while hi < |recs| && UtcDay(recs[hi].tsMs) == day
      invariant lo <= hi <= |recs|
      invariant forall i :: lo <= i < hi ==> UtcDay(recs[i].tsMs) == day
    {
      hi := hi + 1;
    }
    forall i | hi <= i < |recs| ensures UtcDay(recs[i].tsMs) != day {
      DaysOrdered(recs[lo].tsMs, recs[hi].tsMs);
      DaysOrdered(recs[hi].tsMs, recs[i].tsMs);
    }
    DayIsMiddle(day, recs, lo, hi);
  }

  /** Any day's records from some point on are contiguous. */
  lemma DayOfSuffixContiguous(day: u64, recs: seq<RetainedLeaf>, p: nat)
    requires Numbered(recs) && TimesOrdered(recs) && p <= |recs|
    ensures Contiguous(DayLeaves(day, recs[p..]))
  {
    var lo, hi := DayIsOneRun(day, recs[p..]);
    assert DayLeaves(day, recs[p..]) == recs[p + lo..p + hi];
  }

  /** Dropping only records of earlier days leaves a day whole. */
  lemma DayOfSuffixWhole(day: u64, recs: seq<RetainedLeaf>, p: nat)
    requires TimesOrdered(recs) && p <= |recs|
    requires p > 0 ==> UtcDay(recs[p - 1].tsMs) < day
    ensures DayLeaves(day, recs[p..]) == DayLeaves(day, recs)
  {
    forall i | 0 <= i < p ensures UtcDay(recs[i].tsMs) != day {
      DaysOrdered(recs[i].tsMs, recs[p - 1].tsMs);
    }
    NoLeavesOfDay(day, recs[..p]);
    assert recs == recs[..p] + recs[p..];
    DayLeavesOfConcat(day, recs[..p], recs[p..]);
  }

  /** A day the pruning has not reached is retained whole; any day's retained records are contiguous. */
  lemma KeptDay(w: World, day: u64)
    requires Numbered(w.recs) && TimesOrdered(w.recs) && w.pruned <= |w.recs|
    ensures Contiguous(DayLeaves(day, w.Kept().leaves))
    ensures !w.Kept().Partial(day) ==> DayLeaves(day, w.Kept().leaves) == w.EverOn(day)
    ensures forall l :: l in DayLeaves(day, w.Kept().leaves) ==> l in w.recs && UtcDay(l.tsMs) == day
  {
    assert w.Kept().leaves == w.recs[w.pruned..];
    DayOfSuffixContiguous(day, w.recs, w.pruned);
    if !w.Kept().Partial(day) {
      DayOfSuffixWhole(day, w.recs, w.pruned);
    }
    forall l | l in DayLeaves(day, w.Kept().leaves) ensures l in w.recs && UtcDay(l.tsMs) == day {
      DayLeavesContain(day, w.recs[w.pruned..], l);
    }
  }

  // ----- The invariant -------------------------------------------------------------------------------

  /** What a ledger entry says of the log is true: a batched day's header covers exactly the records
      ever written that day; an incomplete day's range is of that day, and pruning had reached it. */
  predicate EntryTrue(w: World, e: LedgerEntry)
    requires |w.recs| < TWO_64
  {
    && e.day < UtcDay(w.nowMs)
    && e.firstSeq <= e.lastSeq < |w.recs|
    && UtcDay(w.recs[e.firstSeq].tsMs) == e.day == UtcDay(w.recs[e.lastSeq].tsMs)
    && match e.status
       case Batched =>
         && w.EverOn(e.day) != [] && Contiguous(w.EverOn(e.day))
         && e.Header() == Some(HeaderOver(e.day, w.EverOn(e.day)))
       case Incomplete => w.Kept().Partial(e.day)
  }

  ghost predicate Inv(w: World) {
    && Numbered(w.recs)
    && TimesOrdered(w.recs)
    && (forall i :: 0 <= i < |w.recs| ==> w.recs[i].tsMs <= w.nowMs)
    && w.pruned <= |w.recs|
    && Loadable(w.file)
    && forall e :: e in w.file.entries ==> EntryTrue(w, e)
  }

  lemma AppendKeepsEntry(w: World, l: RetainedLeaf, e: LedgerEntry)
    requires Inv(w) && EntryTrue(w, e) && |w.recs| + 1 < TWO_64
    requires l.seqNo == |w.recs| && l.tsMs == w.nowMs
    ensures EntryTrue(w.(recs := w.recs + [l]), e)
  {
    DayLeavesOfConcat(e.day, w.recs, [l]);
    NoLeavesOfDay(e.day, [l]);
    var v := w.(recs := w.recs + [l]);
    assert v.EverOn(e.day) == w.EverOn(e.day);
    if w.pruned > 0 {
      assert v.recs[v.pruned - 1] == w.recs[w.pruned - 1];
    }
  }

  /** No two days claim a record in common. */
  lemma NoOverlap(w: World, day: u64, first: u64, last: u64)
    requires Inv(w) && FindDay(w.file.entries, day).None?
    requires first <= last < |w.recs|
    requires UtcDay(w.recs[first].tsMs) == day == UtcDay(w.recs[last].tsMs)
    ensures FindOverlap(w.file.entries, first, last).None?
  {
    forall e | e in w.file.entries ensures !e.Overlaps(first, last) {
      assert EntryTrue(w, e) && e.day != day;
    }
  }

  lemma SeqIsIndex(w: World, l: RetainedLeaf)
    requires Numbered(w.recs) && l in w.recs
    ensures l.seqNo < |w.recs| && w.recs[l.seqNo] == l
  {
  }

  /** A file that loads and whose entries are true may take the place of the world's file. */
  lemma InvWithFile(w: World, g: LedgerFile)
    requires Inv(w) && Loadable(g) && forall e :: e in g.entries ==> EntryTrue(w, e)
    ensures Inv(w.(file := g))
  {
    var v := w.(file := g);
    forall e | e in g.entries ensures EntryTrue(v, e) {
      assert EntryTrue(w, e);
      assert v.EverOn(e.day) == w.EverOn(e.day) && v.Kept() == w.Kept();
    }
  }

  lemma RecordedNewEntry(w: World, entry: LedgerEntry)
    requires Inv(w) && EntryTrue(w, entry) && entry.Checks()
    requires FindDay(w.file.entries, entry.day).None?
    requires FindOverlap(w.file.entries, entry.firstSeq, entry.lastSeq).None?
    ensures var g := w.file.(entries := InsertByDay(w.file.entries, entry));
            && Inv(w.(file := g)) && Keeps(w.file, g) && FindDay(g.entries, entry.day) == Some(entry)
  {
    var g := w.file.(entries := InsertByDay(w.file.entries, entry));
    InsertedKeeps(w.file, entry, (e: LedgerEntry) => false);
    forall x ensures x in g.entries <==> x in w.file.entries || x == entry {
      InsertByDayAddsOne(w.file.entries, entry, x);
    }
    assert forall e :: KeptEntry(e, e);
    assert entry in g.entries;
    InvWithFile(w, g);
  }

  /** The retained records of a day without an entry claim no record of another entry. */
  lemma NewRangeIsTrue(w: World, day: u64)
    requires Inv(w) && FindDay(w.file.entries, day).None?
    requires DayLeaves(day, w.Kept().leaves) != []
    ensures var ls := DayLeaves(day, w.Kept().leaves);
            var first, last := ls[0].seqNo, ls[|ls| - 1].seqNo;
            && Contiguous(ls) && last - first + 1 == |ls|
            && first <= last < |w.recs|
            && UtcDay(w.recs[first].tsMs) == day == UtcDay(w.recs[last].tsMs)
            && FindOverlap(w.file.entries, first, last).None?
            && (!w.Kept().Partial(day) ==> ls == w.EverOn(day))
  {
    KeptDay(w, day);
    var ls := DayLeaves(day, w.Kept().leaves);
    assert ls[0] in ls && ls[|ls| - 1] in ls;
    SeqIsIndex(w, ls[0]);
    SeqIsIndex(w, ls[|ls| - 1]);
    NoOverlap(w, day, ls[0].seqNo, ls[|ls| - 1].seqNo);
  }

  /** What planning a new day does when it finds part of the day's records and nothing in its way. */
  lemma PlanNewPartial(ret: Retained, f: LedgerFile, day: u64, nowMs: u64, first: u64, last: u64)
    requires |ret.leaves| < TWO_64 && Loadable(f) && FindDay(f.entries, day).None? && ret.Partial(day)
    requires var ls := DayLeaves(day, ret.leaves);
             ls != [] && Contiguous(ls) && first == ls[0].seqNo && last == ls[|ls| - 1].seqNo
    requires first <= last && FindOverlap(f.entries, first, last).None?
    ensures PlanNew(ret, f, day, nowMs)
         == (Ok(IncompleteDay(day, |DayLeaves(day, ret.leaves)|)),
             f.(entries := InsertByDay(f.entries, IncompleteEntry(day, first, last, nowMs))))
  {
  }

  lemma PlanPartlyPrunedDay(w: World, day: u64)
    requires Inv(w) && day < UtcDay(w.nowMs) && FindDay(w.file.entries, day).None?
    requires DayLeaves(day, w.Kept().leaves) != [] && w.Kept().Partial(day)
    ensures var (p, g) := PlanNew(w.Kept(), w.file, day, w.nowMs);
            && Inv(w.(file := g)) && Keeps(w.file, g)
            && p == Ok(IncompleteDay(day, |DayLeaves(day, w.Kept().leaves)|))
            && FindDay(g.entries, day).Some?
            && FindDay(g.entries, day).value.status == Incomplete
            && FindDay(g.entries, day).value.confirmed.None?
            && FindDay(g.entries, day).value.count == |DayLeaves(day, w.Kept().leaves)|
  {
    NewRangeIsTrue(w, day);
    var ls := DayLeaves(day, w.Kept().leaves);
    var first, last := ls[0].seqNo, ls[|ls| - 1].seqNo;
    IncompleteEntryIsSound(w, day, first, last);
    RecordedNewEntry(w, IncompleteEntry(day, first, last, w.nowMs));
    PlanNewPartial(w.Kept(), w.file, day, w.nowMs, first, last);
  }

  lemma IncompleteEntryIsSound(w: World, day: u64, first: u64, last: u64)
    requires |w.recs| < TWO_64 && first <= last < |w.recs|
    requires UtcDay(w.recs[first].tsMs) == day == UtcDay(w.recs[last].tsMs) < UtcDay(w.nowMs)
    requires w.Kept().Partial(day)
    ensures var entry := IncompleteEntry(day, first, last, w.nowMs);
            EntryTrue(w, entry) && entry.Checks() && entry.count == last - first + 1
  {
    WrappedCountChecks(first, last);
  }

  lemma PlanNewWhole(ret: Retained, f: LedgerFile, day: u64, nowMs: u64, h: BatchHeader)
    requires |ret.leaves| < TWO_64 && Loadable(f) && FindDay(f.entries, day).None? && !ret.Partial(day)
    requires DayLeaves(day, ret.leaves) != [] && Contiguous(DayLeaves(day, ret.leaves))
    requires h == HeaderOver(day, DayLeaves(day, ret.leaves)) && h.WellFormed()
    requires FindOverlap(f.entries, h.firstSeq, h.lastSeq).None?
    ensures PlanNew(ret, f, day, nowMs)
         == (Ok(Ready(h, h.Commitment(), true)), f.(entries := InsertByDay(f.entries, BatchedEntry(h, nowMs))))
  {
  }

  lemma PlanWholeDay(w: World, day: u64)
    requires Inv(w) && day < UtcDay(w.nowMs) && FindDay(w.file.entries, day).None?
    requires DayLeaves(day, w.Kept().leaves) != [] && !w.Kept().Partial(day)
    ensures var (p, g) := PlanNew(w.Kept(), w.file, day, w.nowMs);
            var ls := w.EverOn(day);
            && ls != [] && Contiguous(ls)
            && Inv(w.(file := g)) && Keeps(w.file, g)
            && p == Ok(Ready(HeaderOver(day, ls), HeaderOver(day, ls).Commitment(), true))
            && FindDay(g.entries, day) == Some(BatchedEntry(HeaderOver(day, ls), w.nowMs))
  {
    NewRangeIsTrue(w, day);
    var h := HeaderOver(day, w.EverOn(day));
    var entry := BatchedEntry(h, w.nowMs);
    assert entry.Header() == Some(h);
    assert EntryTrue(w, entry) && entry.Checks();
    RecordedNewEntry(w, entry);
    PlanNewWhole(w.Kept(), w.file, day, w.nowMs, h);
  }

  /** In a reachable world, planning a day without an entry succeeds and records what is true. */
  lemma PlanNewIsTrue(w: World, day: u64)
    requires Inv(w) && day < UtcDay(w.nowMs) && FindDay(w.file.entries, day).None?
    ensures var (p, g) := PlanNew(w.Kept(), w.file, day, w.nowMs);
            && Inv(w.(file := g)) && Keeps(w.file, g) && p.Ok?
            && (DayLeaves(day, w.Kept().leaves) != [] ==> FindDay(g.entries, day).Some?)
  {
    assert forall e :: KeptEntry(e, e);
    KeptDay(w, day);
    if DayLeaves(day, w.Kept().leaves) != [] {
      if w.Kept().Partial(day) {
        PlanPartlyPrunedDay(w, day);
      } else {
        PlanWholeDay(w, day);
      }
    }
  }

  /** Planning a recorded, unconfirmed, batched day in a reachable world repeats its header. */
  lemma PlanRecordedRepeats(w: World, day: u64, e: LedgerEntry)
    requires Inv(w) && FindDay(w.file.entries, day) == Some(e) && e.status == Batched
    ensures PlanRecorded(w.Kept(), w.file, day, e)
         == (Ok(Ready(HeaderOver(day, w.EverOn(day)), HeaderOver(day, w.EverOn(day)).Commitment(), false)), w.file)
  {
    assert EntryTrue(w, e);
    KeptDay(w, day);
  }

  lemma PlanKeepsInv(w: World, day: u64, registryOk: bool)
    requires Inv(w)
    ensures Inv(w.(file := w.Plan(day, registryOk).1)) && Keeps(w.file, w.Plan(day, registryOk).1)
  {
    assert forall e :: KeptEntry(e, e);
    if day < UtcDay(w.nowMs) && registryOk {
      match FindDay(w.file.entries, day)
      case None => PlanNewIsTrue(w, day);
      case Some(e) =>
        if e.confirmed.None? && e.status == Batched {
          PlanRecordedRepeats(w, day, e);
        }
    }
  }

  lemma KeptEntryStaysTrue(w: World, e: LedgerEntry, later: LedgerEntry)
    requires |w.recs| < TWO_64 && EntryTrue(w, e) && KeptEntry(e, later)
    ensures EntryTrue(w, later)
  {
    assert later.Header() == e.Header();
  }

  lemma KeptEntriesStayTrue(w: World, es: seq<LedgerEntry>, out: seq<LedgerEntry>)
    requires |w.recs| < TWO_64 && forall e :: e in es ==> EntryTrue(w, e)
    requires |out| == |es| && forall i :: 0 <= i < |es| ==> KeptEntry(es[i], out[i])
    ensures forall e :: e in out ==> EntryTrue(w, e)
  {
    forall e | e in out ensures EntryTrue(w, e) {
      var i :| 0 <= i < |out| && out[i] == e;
      assert es[i] in es;
      KeptEntryStaysTrue(w, es[i], e);
    }
  }

  lemma ConfirmKeepsInv(w: World, day: u64, c: Confirmation)
    requires Inv(w)
    ensures Inv(w.(file := Confirmed(w.file, day, c).1)) && Keeps(w.file, Confirmed(w.file, day, c).1)
  {
    var g := Confirmed(w.file, day, c).1;
    assert Loadable(g) && Keeps(w.file, g) by {
      ConfirmKeeps(w.file, day, c);
    }
    assert forall e :: e in g.entries ==> EntryTrue(w, e) by {
      ConfirmInKeeps(w.file.entries, day, c);
      KeptEntriesStayTrue(w, w.file.entries, g.entries);
    }
    InvWithFile(w, g);
  }

  lemma AppendKeepsInv(w: World, hash: Digest)
    requires Inv(w)
    ensures Inv(After(w, Append(hash))) && After(w, Append(hash)).file == w.file
  {
    var v := After(w, Append(hash));
    if v != w {
      forall e | e in v.file.entries ensures EntryTrue(v, e) {
        AppendKeepsEntry(w, RetainedLeaf(|w.recs|, NextTs(w), hash), e);
      }
    }
  }

  lemma PruneKeepsInv(w: World, upTo: nat)
    requires Inv(w)
    ensures Inv(After(w, Prune(upTo))) && After(w, Prune(upTo)).file == w.file
  {
    var v := After(w, Prune(upTo));
    if v.pruned > 0 && w.pruned > 0 {
      DaysOrdered(w.recs[w.pruned - 1].tsMs, w.recs[v.pruned - 1].tsMs);
    }
    forall e | e in v.file.entries ensures EntryTrue(v, e) {
      assert EntryTrue(w, e);
    }
  }

  lemma TickKeepsInv(w: World, toMs: u64)
    requires Inv(w)
    ensures Inv(After(w, Tick(toMs))) && After(w, Tick(toMs)).file == w.file
  {
    var v := After(w, Tick(toMs));
    if v != w {
      DaysOrdered(w.nowMs, toMs);
    }
    forall e | e in v.file.entries ensures EntryTrue(v, e) {
      assert EntryTrue(w, e);
    }
  }

  lemma SameFileKeeps(f: LedgerFile)
    ensures Keeps(f, f)
  {
    assert forall e :: KeptEntry(e, e);
  }

  /** What every step keeps of the world and of the ledger. */
  ghost predicate StepFine(w: World, s: Step) {
    Inv(After(w, s)) && Keeps(w.file, After(w, s).file)
  }

  lemma FileIsFine(w: World, s: Step, g: LedgerFile)
    requires After(w, s) == w.(file := g) && Inv(w.(file := g)) && Keeps(w.file, g)
    ensures StepFine(w, s)
  {
  }

  lemma PlanIsFine(w: World, s: Step)
    requires Inv(w) && s.Plan?
    ensures StepFine(w, s)
  {
    assert |w.recs| < TWO_64;
    var g := w.Plan(s.day, s.registryOk).1;
    assert After(w, s) == w.(file := g);
    PlanKeepsInv(w, s.day, s.registryOk);
    FileIsFine(w, s, g);
  }

  lemma ConfirmIsFine(w: World, s: Step)
    requires Inv(w) && s.Confirm?
    ensures StepFine(w, s)
  {
    ConfirmKeepsInv(w, s.confirmDay, s.c);
  }

  lemma OthersAreFine(w: World, s: Step)
    requires Inv(w) && (s.Append? || s.Prune? || s.Tick?)
    ensures StepFine(w, s)
  {
    match s {
      case Append(hash) => AppendKeepsInv(w, hash);
      case Prune(upTo) => PruneKeepsInv(w, upTo);
      case Tick(toMs) => TickKeepsInv(w, toMs);
    }
    SameFileKeeps(w.file);
  }

  lemma StepKeepsInv(w: World, s: Step)
    requires Inv(w)
    ensures StepFine(w, s)
  {
    if s.Plan? {
      PlanIsFine(w, s);
    } else if s.Confirm? {
      ConfirmIsFine(w, s);
    } else {
      OthersAreFine(w, s);
    }
  }
}
