/** Every run of the nightly job beside the log. */
module NightlyRuns {
  // What plans, entries and proofs promise, whatever happens in between (`NightlySteps`).

  import opened Wrappers
  import opened Merkle
  import opened Batch
  import opened Ledger
  import opened Nightly
  import opened NightlySteps

  lemma {:induction false} RunKeepsInv(w: World, steps: seq<Step>)
    requires Inv(w)
    ensures Inv(Run(w, steps)) && Keeps(w.file, Run(w, steps).file)
    decreases |steps|
  {
    if steps == [] {
      assert forall e :: KeptEntry(e, e);
    } else {
      var v := After(w, steps[0]);
      StepKeepsInv(w, steps[0]);
      RunKeepsInv(v, steps[1..]);
      KeepsTransitive(w.file, v.file, Run(v, steps[1..]).file);
    }
  }

  // ----- What every run promises ---------------------------------------------------------------------

  /** At any point of any run, planning a closed day never fails: no gap, overlap, conflict or corrupt
      file ever occurs. */
  lemma PlanningNeverFails(steps: seq<Step>, day: u64, registryOk: bool)
    ensures var w := Run(START, steps);
            && Inv(w)
            && (w.Plan(day, registryOk).0.Err? <==> day >= UtcDay(w.nowMs) || !registryOk)
  {
    RunKeepsInv(START, steps);
    var w := Run(START, steps);
    if day < UtcDay(w.nowMs) && registryOk {
      match FindDay(w.file.entries, day)
      case None => PlanNewIsTrue(w, day);
      case Some(e) =>
        if e.confirmed.None? && e.status == Batched {
          PlanRecordedRepeats(w, day, e);
        }
    }
  }

  /** A `Ready` plan commits to exactly the records ever written on its day. */
  lemma ReadyCoversTheDay(steps: seq<Step>, day: u64)
    ensures var w := Run(START, steps);
            |w.recs| < TWO_64 &&
            var p := w.Plan(day, true).0;
            p.Ok? && p.value.Ready? ==>
              && w.EverOn(day) != [] && Contiguous(w.EverOn(day))
              && p.value.header == HeaderOver(day, w.EverOn(day))
              && p.value.commitment == p.value.header.Commitment()
  {
    RunKeepsInv(START, steps);
    var w := Run(START, steps);
    if day < UtcDay(w.nowMs) {
      KeptDay(w, day);
      match FindDay(w.file.entries, day)
      case None =>
        if DayLeaves(day, w.Kept().leaves) != [] {
          if w.Kept().Partial(day) {
            PlanPartlyPrunedDay(w, day);
          } else {
            PlanWholeDay(w, day);
          }
        }
      case Some(e) =>
        if e.confirmed.None? && e.status == Batched {
          assert EntryTrue(w, e);
          PlanRecordedRepeats(w, day, e);
        }
    }
  }

  /** The answer for a recorded day: its header again, or the confirmed entry that carries it. */
  predicate SameBatch(p: Planned, h: BatchHeader) {
    p.Ok? && ((p.value.Ready? && p.value.header == h && p.value.commitment == h.Commitment() && !p.value.newlyRecorded)
              || (p.value.AlreadyAnchored? && p.value.entry.Header() == Some(h)
                  && p.value.entry.commitment == Some(h.Commitment())))
  }

  lemma KeptDayEntry(f: LedgerFile, g: LedgerFile, day: u64)
    requires Loadable(g) && Keeps(f, g) && FindDay(f.entries, day).Some?
    ensures FindDay(g.entries, day).Some?
    ensures KeptEntry(FindDay(f.entries, day).value, FindDay(g.entries, day).value)
  {
    var e := FindDay(f.entries, day).value;
    var later :| later in g.entries && KeptEntry(e, later);
    var other := FindDay(g.entries, day).value;
    var i :| 0 <= i < |g.entries| && g.entries[i] == later;
    var j :| 0 <= j < |g.entries| && g.entries[j] == other;
    assert i == j;
  }

  /** A recorded batch answers every later plan of its day with the same header. */
  lemma ClosedDayKeepsHeader(w: World, steps: seq<Step>, day: u64, e: LedgerEntry)
    requires Inv(w) && FindDay(w.file.entries, day) == Some(e) && e.status == Batched
    ensures Inv(Run(w, steps)) && e.Header().Some?
    ensures SameBatch(Run(w, steps).Plan(day, true).0, e.Header().value)
  {
    RunKeepsInv(w, steps);
    ClockOnlyAdvances(w, steps);
    assert EntryTrue(w, e);
    PlanOfKeptBatch(w, Run(w, steps), day, e);
  }

  lemma PlanOfKeptBatch(w: World, v: World, day: u64, e: LedgerEntry)
    requires Inv(v) && Keeps(w.file, v.file) && day < UtcDay(v.nowMs)
    requires FindDay(w.file.entries, day) == Some(e) && e.status == Batched && e.Header().Some?
    ensures SameBatch(v.Plan(day, true).0, e.Header().value)
  {
    KeptDayEntry(w.file, v.file, day);
    var later := FindDay(v.file.entries, day).value;
    assert later in v.file.entries && later.Checks() && later.Header() == e.Header();
    if later.confirmed.None? {
      PlanRecordedRepeats(v, day, later);
      assert EntryTrue(v, later);
    }
  }

  /** A `Ready` plan leaves its header in the ledger. */
  lemma ReadyIsRecorded(w: World, day: u64)
    requires Inv(w)
    ensures var (p, g) := w.Plan(day, true);
            p.Ok? && p.value.Ready? ==>
              && FindDay(g.entries, day).Some?
              && FindDay(g.entries, day).value.status == Batched
              && FindDay(g.entries, day).value.Header() == Some(p.value.header)
  {
    if day < UtcDay(w.nowMs) {
      match FindDay(w.file.entries, day) {
        case None =>
          if DayLeaves(day, w.Kept().leaves) != [] {
            if w.Kept().Partial(day) {
              PlanPartlyPrunedDay(w, day);
            } else {
              PlanWholeDay(w, day);
            }
          }
        case Some(e) =>
          if e.status == Batched && e.confirmed.None? {
            PlanRecordedRepeats(w, day, e);
          }
      }
    }
  }

  /** Once a day was planned `Ready`, every later plan of it, however many records come, are pruned or
      confirmed in between, answers with the same commitment. */
  lemma ReadyIsRepeated(before: seq<Step>, day: u64, later: seq<Step>)
    ensures var w := Run(START, before);
            |w.recs| < TWO_64 &&
            var p := w.Plan(day, true).0;
            var v := Run(w.(file := w.Plan(day, true).1), later);
            |v.recs| < TWO_64 &&
            (p.Ok? && p.value.Ready? ==> SameBatch(v.Plan(day, true).0, p.value.header))
  {
    RunKeepsInv(START, before);
    var w := Run(START, before);
    var (p, g) := w.Plan(day, true);
    PlanKeepsInv(w, day, true);
    RunKeepsInv(w.(file := g), later);
    ReadyIsRecorded(w, day);
    if p.Ok? && p.value.Ready? {
      ClosedDayKeepsHeader(w.(file := g), later, day, FindDay(g.entries, day).value);
    }
  }

  lemma {:induction false} ClockOnlyAdvances(w: World, steps: seq<Step>)
    ensures w.nowMs <= Run(w, steps).nowMs
    decreases |steps|
  {
    if steps != [] {
      ClockOnlyAdvances(After(w, steps[0]), steps[1..]);
    }
  }

  /** An incomplete report answers every later plan of its day. */
  lemma IncompleteEntryStays(w: World, steps: seq<Step>, day: u64, e: LedgerEntry)
    requires Inv(w) && FindDay(w.file.entries, day) == Some(e) && e.status == Incomplete
    ensures Inv(Run(w, steps))
    ensures Run(w, steps).Plan(day, true).0 == Ok(IncompleteDay(day, e.count))
  {
    RunKeepsInv(w, steps);
    ClockOnlyAdvances(w, steps);
    assert EntryTrue(w, e) && e.Checks();
    var v := Run(w, steps);
    KeptDayEntry(w.file, v.file, day);
    DaysOrdered(w.nowMs, v.nowMs);
  }

  /** A day reported incomplete is reported incomplete ever after, with the same count: it never gets a
      root. */
  lemma IncompleteNeverBecomesReady(before: seq<Step>, day: u64, later: seq<Step>)
    ensures var w := Run(START, before);
            |w.recs| < TWO_64 &&
            var p := w.Plan(day, true).0;
            var v := Run(w.(file := w.Plan(day, true).1), later);
            |v.recs| < TWO_64 &&
            (p.Ok? && p.value.IncompleteDay? ==> v.Plan(day, true).0 == p)
  {
    RunKeepsInv(START, before);
    var w := Run(START, before);
    var (p, g) := w.Plan(day, true);
    PlanKeepsInv(w, day, true);
    RunKeepsInv(w.(file := g), later);
    if p.Ok? && p.value.IncompleteDay? {
      IncompleteIsRecorded(w, day);
      IncompleteEntryStays(w.(file := g), later, day, FindDay(g.entries, day).value);
    }
  }

  lemma IncompleteIsRecorded(w: World, day: u64)
    requires Inv(w) && w.Plan(day, true).0.Ok? && w.Plan(day, true).0.value.IncompleteDay?
    ensures var (p, g) := w.Plan(day, true);
            && FindDay(g.entries, day).Some?
            && FindDay(g.entries, day).value.status == Incomplete
            && p == Ok(IncompleteDay(day, FindDay(g.entries, day).value.count))
  {
    match FindDay(w.file.entries, day) {
      case None =>
        KeptDay(w, day);
        if DayLeaves(day, w.Kept().leaves) != [] {
          if w.Kept().Partial(day) {
            PlanPartlyPrunedDay(w, day);
          } else {
            PlanWholeDay(w, day);
          }
        }
      case Some(e) =>
        if e.status == Batched && e.confirmed.None? {
          PlanRecordedRepeats(w, day, e);
        }
    }
  }

  lemma StillThereLater(f: LedgerFile, g: LedgerFile, day: u64)
    requires Keeps(f, g) && HasEntry(f, day)
    ensures HasEntry(g, day)
  {
    var e :| e in f.entries && e.day == day;
    var later :| later in g.entries && KeptEntry(e, later);
  }

  /** Planning a day that is over and of which a record is still there leaves an entry for it. */
  lemma PlanLeavesEntry(w: World, day: u64)
    requires Inv(w) && StillToPlan(w.Kept().leaves, w.file, w.nowMs, day)
    ensures w.Plan(day, true).0.Ok? && HasEntry(w.Plan(day, true).1, day)
  {
    var ls := w.Kept().leaves;
    var l :| l in ls && OnDay(l.tsMs, day);
    UtcDayIs(l.tsMs, day);
    UtcDayIs(w.nowMs, day);
    DayLeavesContain(day, ls, l);
    assert FindDay(w.file.entries, day).None?;
    PlanNewIsTrue(w, day);
  }

  /** One plan for each of the days, in turn. */
  function PlansOf(days: seq<u64>): (steps: seq<Step>) {
    seq(|days|, i requires 0 <= i < |days| => Plan(days[i], true))
  }

  /** Every plan in turn succeeds. */
  ghost predicate AllPlanned(w: World, days: seq<u64>)
    decreases |days|
  {
    days != [] ==>
      |w.recs| < TWO_64 && w.Plan(days[0], true).0.Ok? && AllPlanned(After(w, Plan(days[0], true)), days[1..])
  }

  /** Keeping entries takes days off the list and puts none on. */
  lemma FewerToPlan(ls: seq<RetainedLeaf>, f: LedgerFile, g: LedgerFile, nowMs: u64, d: u64)
    requires Keeps(f, g) && StillToPlan(ls, g, nowMs, d)
    ensures StillToPlan(ls, f, nowMs, d)
  {
    if HasEntry(f, d) {
      StillThereLater(f, g, d);
    }
  }

  lemma PlannedIsSettled(w: World, day: u64)
    requires Inv(w)
    ensures !StillToPlan(w.Kept().leaves, w.Plan(day, true).1, w.nowMs, day)
  {
    var g := w.Plan(day, true).1;
    PlanKeepsInv(w, day, true);
    if StillToPlan(w.Kept().leaves, g, w.nowMs, day) {
      FewerToPlan(w.Kept().leaves, w.file, g, w.nowMs, day);
      PlanLeavesEntry(w, day);
    }
  }

  lemma PlanningOne(w: World, day: u64, d: u64)
    requires Inv(w) && day < UtcDay(w.nowMs)
    requires StillToPlan(w.Kept().leaves, w.Plan(day, true).1, w.nowMs, d)
    ensures d != day && StillToPlan(w.Kept().leaves, w.file, w.nowMs, d)
  {
    PlanKeepsInv(w, day, true);
    PlannedIsSettled(w, day);
    FewerToPlan(w.Kept().leaves, w.file, w.Plan(day, true).1, w.nowMs, d);
  }

  /** These days are over, and every day still to plan is among them. */
  ghost predicate ToPlanAreIn(w: World, days: seq<u64>) {
    && (forall day :: day in days ==> DayOver(day, w.nowMs))
    && (forall day :: StillToPlan(w.Kept().leaves, w.file, w.nowMs, day) ==> day in days)
  }

  lemma PlanningFirst(w: World, days: seq<u64>)
    requires Inv(w) && days != [] && ToPlanAreIn(w, days)
    ensures w.Plan(days[0], true).0.Ok? && Inv(w.(file := w.Plan(days[0], true).1))
    ensures ToPlanAreIn(w.(file := w.Plan(days[0], true).1), days[1..])
  {
    var day := days[0];
    var v := w.(file := w.Plan(day, true).1);
    PlanKeepsInv(w, day, true);
    UtcDayIs(w.nowMs, day);
    PlanOfClosedDay(w, day);
    assert v.Kept() == w.Kept();
    forall d | StillToPlan(v.Kept().leaves, v.file, v.nowMs, d) ensures d in days[1..] {
      PlanningOne(w, day, d);
    }
  }

  lemma {:induction false} PlanningEach(w: World, days: seq<u64>)
    requires Inv(w) && ToPlanAreIn(w, days)
    ensures var v := Run(w, PlansOf(days)); Inv(v) && v == w.(file := v.file) && ToPlanAreIn(v, [])
    ensures AllPlanned(w, days)
    decreases |days|
  {
    if days != [] {
      PlanningFirst(w, days);
      assert PlansOf(days)[0] == Plan(days[0], true) && PlansOf(days)[1..] == PlansOf(days[1..]);
      PlanningEach(After(w, Plan(days[0], true)), days[1..]);
    }
  }

  lemma PlanOfClosedDay(w: World, day: u64)
    requires Inv(w) && day < UtcDay(w.nowMs)
    ensures w.Plan(day, true).0.Ok?
  {
    match FindDay(w.file.entries, day)
    case None => PlanNewIsTrue(w, day);
    case Some(e) =>
      if e.confirmed.None? && e.status == Batched {
        PlanRecordedRepeats(w, day, e);
      }
  }

  lemma SomeMember(days: seq<u64>)
    requires days != []
    ensures exists day :: day in days
  {
    assert days[0] in days;
  }

  /** The nightly job leaves no day behind. At any point of any run, a record that is still there and whose
      day is over is of a day that the ledger has or that is on the list; planning the list in turn never
      fails, and after it the list is empty and every such record's day has its entry. */
  lemma PlanningTheListSettlesAll(steps: seq<Step>)
    ensures var w := Run(START, steps);
            var days := PendingDays(w.Kept(), w.file, w.nowMs);
            var v := Run(w, PlansOf(days));
            && AllPlanned(w, days) && PendingDays(v.Kept(), v.file, v.nowMs) == []
            && forall l, day :: l in w.Kept().leaves && OnDay(l.tsMs, day) && DayOver(day, w.nowMs) ==>
                 && (HasEntry(w.file, day) || day in days)
                 && HasEntry(v.file, day)
  {
    RunKeepsInv(START, steps);
    var w := Run(START, steps);
    var days := PendingDays(w.Kept(), w.file, w.nowMs);
    PendingDaysAre(w.Kept(), w.file, w.nowMs);
    forall day | day in days ensures DayOver(day, w.nowMs) {
      assert StillToPlan(w.Kept().leaves, w.file, w.nowMs, day);
    }
    PlanningEach(w, days);
    var v := Run(w, PlansOf(days));
    assert v.Kept() == w.Kept();
    PendingDaysAre(v.Kept(), v.file, v.nowMs);
    if PendingDays(v.Kept(), v.file, v.nowMs) != [] {
      SomeMember(PendingDays(v.Kept(), v.file, v.nowMs));
    }
    forall l, day | l in w.Kept().leaves && OnDay(l.tsMs, day) && DayOver(day, w.nowMs)
      ensures HasEntry(w.file, day) || day in days
      ensures HasEntry(v.file, day)
    {
      assert HasEntry(w.file, day) || StillToPlan(w.Kept().leaves, w.file, w.nowMs, day);
      assert v.Kept() == w.Kept();
      assert HasEntry(v.file, day) || StillToPlan(v.Kept().leaves, v.file, v.nowMs, day);
    }
  }

  /** Planning one day of the list takes it off, adds none, and leaves an entry. */
  lemma PlanSettlesPendingDay(steps: seq<Step>, day: u64)
    ensures var w := Run(START, steps);
            |w.recs| < TWO_64 &&
            var before, after := PendingDays(w.Kept(), w.file, w.nowMs), PendingDays(w.Kept(), w.Plan(day, true).1, w.nowMs);
            (day in before ==>
               && HasEntry(w.Plan(day, true).1, day)
               && day !in after && forall d :: d in after ==> d in before)
  {
    RunKeepsInv(START, steps);
    var w := Run(START, steps);
    var g := w.Plan(day, true).1;
    PlanKeepsInv(w, day, true);
    PendingDaysAre(w.Kept(), w.file, w.nowMs);
    PendingDaysAre(w.Kept(), g, w.nowMs);
    if day in PendingDays(w.Kept(), w.file, w.nowMs) {
      PlanLeavesEntry(w, day);
      forall d | d in PendingDays(w.Kept(), g, w.nowMs) ensures d in PendingDays(w.Kept(), w.file, w.nowMs) {
        if HasEntry(w.file, d) {
          StillThereLater(w.file, g, d);
        }
      }
    }
  }

  /** While a batched day is retained whole, every record of it has a proof; and no proof handed out
      ever fails against the recorded commitment (`Nightly.ProvedRight`). */
  lemma BatchedRecordsAreProvable(steps: seq<Step>, l: RetainedLeaf, r: Proved)
    ensures var w := Run(START, steps);
            |w.recs| < TWO_64 && Loadable(w.file) &&
            var e := FindDay(w.file.entries, UtcDay(l.tsMs));
            (l in w.Kept().leaves && e.Some? && e.value.status == Batched
             && !w.Kept().Partial(UtcDay(l.tsMs)) && ProvedRight(w.Kept(), w.file, l, r) ==>
               && r.Ok? && r.value.Some? && r.value.value.recordHash == l.hash
               && e.value.commitment.Some? && VerifyProof(r.value.value, e.value.commitment.value))
  {
    RunKeepsInv(START, steps);
    var w := Run(START, steps);
    var e := FindDay(w.file.entries, UtcDay(l.tsMs));
    if e.Some? && e.value.status == Batched && !w.Kept().Partial(UtcDay(l.tsMs)) && ProvedRight(w.Kept(), w.file, l, r) {
      RetainedDayIsProvable(w, l, e.value, r);
    }
  }

  lemma RetainedDayIsProvable(w: World, l: RetainedLeaf, e: LedgerEntry, r: Proved)
    requires Inv(w) && FindDay(w.file.entries, UtcDay(l.tsMs)) == Some(e) && e.status == Batched
    requires !w.Kept().Partial(UtcDay(l.tsMs)) && ProvedRight(w.Kept(), w.file, l, r)
    ensures r.Ok? && r.value.Some? && r.value.value.recordHash == l.hash
    ensures e.commitment.Some? && VerifyProof(r.value.value, e.commitment.value)
  {
    assert EntryTrue(w, e);
    KeptDay(w, UtcDay(l.tsMs));
  }

  // ----- Where the code says more than is so -----------------------------------------------------------

  /** `Pruned` is reported exactly when no record of the day is retained and pruning passed the day;
      so it is also reported for a day that never had a record. */
  lemma PrunedAlsoForEmptyDay()
    ensures var w := Run(START, [Tick(5 * DAY_MS), Append(Bytes(1)), Tick(6 * DAY_MS), Prune(1)]);
            && w.EverOn(3) == [] && |w.recs| == 1
            && w.Plan(3, true).0 == Ok(Pruned(3))
  {
    RunOfFour(Tick(5 * DAY_MS), Append(Bytes(1)), Tick(6 * DAY_MS), Prune(1));
    var w := World([RetainedLeaf(0, 5 * DAY_MS, Bytes(1))], 1, 6 * DAY_MS, EMPTY_FILE);
    assert Run(START, [Tick(5 * DAY_MS), Append(Bytes(1)), Tick(6 * DAY_MS), Prune(1)]) == w by {
      var s1 := After(START, Tick(5 * DAY_MS));
      assert s1 == World([], 0, 5 * DAY_MS, EMPTY_FILE);
      assert [] + [RetainedLeaf(0, 5 * DAY_MS, Bytes(1))] == [RetainedLeaf(0, 5 * DAY_MS, Bytes(1))];
    }
    NoLeavesOfDay(3, w.recs);
    assert w.Kept().leaves == w.recs[1..] == [];
  }

  lemma RunOfFour(a: Step, b: Step, c: Step, d: Step)
    ensures Run(START, [a, b, c, d]) == After(After(After(After(START, a), b), c), d)
  {
    var steps := [a, b, c, d];
    assert steps[1..] == [b, c, d] && [b, c, d][1..] == [c, d] && [c, d][1..] == [d] && [d][1..] == [];
    var s1 := After(START, a);
    var s2 := After(s1, b);
    var s3 := After(s2, c);
    assert Run(s3, [d]) == After(s3, d);
    assert Run(s2, [c, d]) == Run(s3, [d]);
    assert Run(s1, [b, c, d]) == Run(s2, [c, d]);
  }

  /** A record of a later day than `day` is gone. */
  ghost predicate PrunedPast(w: World, day: u64) {
    exists i :: 0 <= i < w.pruned <= |w.recs| && DayOver(day, w.recs[i].tsMs)
  }

  lemma PartialIs(w: World, day: u64)
    requires Inv(w)
    ensures var kept := DayLeaves(day, w.Kept().leaves);
            && (kept != [] ==> (w.Kept().Partial(day) <==> kept != w.EverOn(day)))
            && (kept == [] && w.EverOn(day) != [] ==> w.Kept().Partial(day))
            && (w.EverOn(day) == [] ==> (w.Kept().Partial(day) <==> PrunedPast(w, day)))
  {
    var p := w.pruned;
    KeptDay(w, day);
    assert w.recs == w.recs[..p] + w.recs[p..];
    DayLeavesOfConcat(day, w.recs[..p], w.recs[p..]);
    if p > 0 {
      var last := w.recs[p - 1];
      UtcDayIs(last.tsMs, day);
      DayLeavesContain(day, w.recs[..p], last);
      DayLeavesContain(day, w.recs, last);
      if UtcDay(last.tsMs) > day {
        NoLeavesAfter(day, w.recs, p);
        assert DayOver(day, w.recs[p - 1].tsMs);
      } else {
        forall i | 0 <= i < p ensures !DayOver(day, w.recs[i].tsMs) {
          UtcDayIs(w.recs[i].tsMs, day);
          DaysOrdered(w.recs[i].tsMs, last.tsMs);
        }
      }
    }
  }

  /** Once a record of a later day is gone, no record of this day is left. */
  lemma NoLeavesAfter(day: u64, recs: seq<RetainedLeaf>, p: nat)
    requires TimesOrdered(recs) && 0 < p <= |recs| && day < UtcDay(recs[p - 1].tsMs)
    ensures DayLeaves(day, recs[p..]) == []
  {
    forall i | p <= i < |recs| ensures UtcDay(recs[i].tsMs) != day {
      DaysOrdered(recs[p - 1].tsMs, recs[i].tsMs);
    }
    NoLeavesOfDay(day, recs[p..]);
  }

  /** What the plan of a day without an entry says, by what was written on the day and what of it is kept:
      a batch exactly when all of it is kept, an incomplete day exactly when part of it is, with their number,
      and without any kept record whether records of the day, or of a later one, are gone. */
  lemma PlanSaysWhatIsRetained(steps: seq<Step>, day: u64)
    ensures var w := Run(START, steps);
            |w.recs| < TWO_64 &&
            (DayOver(day, w.nowMs) && !HasEntry(w.file, day) ==>
               var p := w.Plan(day, true).0;
               var ever, kept := w.EverOn(day), DayLeaves(day, w.Kept().leaves);
               && p.Ok?
               && (p.value.Ready? <==> ever != [] && kept == ever)
               && (p.value.IncompleteDay? <==> kept != [] && kept != ever)
               && (p.value.IncompleteDay? ==> p.value == IncompleteDay(day, |kept|))
               && (p.value == Pruned(day) <==> kept == [] && (ever != [] || PrunedPast(w, day)))
               && (p.value == Empty(day) <==> ever == [] && !PrunedPast(w, day)))
  {
    RunKeepsInv(START, steps);
    var w := Run(START, steps);
    UtcDayIs(w.nowMs, day);
    if day < UtcDay(w.nowMs) && !HasEntry(w.file, day) {
      assert FindDay(w.file.entries, day).None?;
      KeptDay(w, day);
      PartialIs(w, day);
      if DayLeaves(day, w.Kept().leaves) != [] {
        if w.Kept().Partial(day) {
          PlanPartlyPrunedDay(w, day);
        } else {
          PlanWholeDay(w, day);
        }
      }
    }
  }

  // ----- What a conflict detects ---------------------------------------------------------------------

  /** The same records: same hashes at the same sequence numbers. */
  predicate SameRecords(a: seq<RetainedLeaf>, b: seq<RetainedLeaf>) {
    |a| == |b| && forall i :: 0 <= i < |a| ==> a[i].seqNo == b[i].seqNo && a[i].hash == b[i].hash
  }

  /** A header determines the records under it. */
  lemma HeaderDeterminesRecords(day: u64, a: seq<RetainedLeaf>, b: seq<RetainedLeaf>)
    requires 0 < |a| < TWO_64 && 0 < |b| < TWO_64 && Contiguous(a) && Contiguous(b)
    ensures HeaderOver(day, a).Commitment() == HeaderOver(day, b).Commitment() <==> SameRecords(a, b)
  {
    if HeaderOver(day, a).Commitment() == HeaderOver(day, b).Commitment() {
      TreeHashInjective(Hashes(a), Hashes(b));
      forall i | 0 <= i < |a| ensures a[i].hash == b[i].hash {
        assert Hashes(a)[i] == Hashes(b)[i];
      }
    }
    if SameRecords(a, b) {
      assert Hashes(a) == Hashes(b);
    }
  }

  /** Planning a batched day again, over whatever the log now holds. A record that was changed or added is a
      conflict, one that is missing from the middle a gap, and one missing at either end a conflict; but when
      the day may have been pruned, or none of its records is there, the recorded batch is given out again. */
  lemma ReplanDetectsExactly(f: LedgerFile, day: u64, e: LedgerEntry, batched: seq<RetainedLeaf>, now: Retained)
    requires 0 < |batched| < TWO_64 && Contiguous(batched)
    requires e.Header() == Some(HeaderOver(day, batched)) && |now.leaves| < TWO_64
    ensures var p, ls := PlanRecorded(now, f, day, e).0, DayLeaves(day, now.leaves);
            && (p == Err(Conflict(day)) <==>
                  Contiguous(ls) && ls != [] && !now.Partial(day) && !SameRecords(ls, batched))
            && (p.Err? && p.error.SeqGap? <==> !Contiguous(ls))
            && (p.Ok? <==> Contiguous(ls) && (ls == [] || now.Partial(day) || SameRecords(ls, batched)))
            && (p.Ok? ==> p.value == Ready(HeaderOver(day, batched), HeaderOver(day, batched).Commitment(), false))
  {
    var ls := DayLeaves(day, now.leaves);
    if Contiguous(ls) && ls != [] {
      HeaderDeterminesRecords(day, ls, batched);
    }
    if !Contiguous(ls) {
      GapIsGap(day, ls);
    }
  }

  lemma {:induction false} GapIsGap(day: u64, ls: seq<RetainedLeaf>)
    requires !Contiguous(ls)
    ensures GapError(day, ls).SeqGap?
    decreases |ls|
  {
    if !Contiguous(ls[..|ls| - 1]) {
      GapIsGap(day, ls[..|ls| - 1]);
    }
  }
}
