/** What one step of the learner, a call or a crash, does to decided proposals.

    Two invariants carry everything. With any earlier proposals file: a proposal the log settles is not
    awaiting a decision once the file has been reconciled (`SettledIsDecided`), and only a publish after
    a rejection unsettles one. With the last saved file: whatever awaits a decision in memory also does
    on file, and what the log denies is rejected in both (`FileIsBehind`). Both need that the log and
    the files only speak of proposals that were made (`Typed`). */
module LearnSteps {
  import opened Wrappers
  import opened LearnModel
  import opened LearnCalls
  import opened LearnRuns

  /** A decision that settles its proposal: a reject, or a retraction in favour of another memory. */
  predicate Final(e: Entry) {
    e.Decided? && (((e.kind == LearnSkill || e.kind == LearnMemory) && !e.approved)
                   || (e.kind == Resolve && e.approved && e.kept.Some?))
  }

  predicate Settled(log: Log, id: Id) {
    var i := Latest(log, 0, id);
    i.Some? && Final(log[i.value])
  }

  /** The latest decision about `id` is a reject. */
  predicate Denied(log: Log, id: Id) {
    var i := Latest(log, 0, id);
    i.Some? && log[i.value].kind != Publish && log[i.value].kind != Resolve && !log[i.value].approved
  }

  predicate KindFits(k: Kind, content: Content) {
    if k == LearnSkill || k == Publish then content.Skill? else content.Memory?
  }

  ghost predicate Contents(ps: Proposals, issued: map<Id, Content>) {
    forall id :: id in ps ==> id in issued && ps[id].content == issued[id]
  }

  ghost predicate LogFits(log: Log, issued: map<Id, Content>) {
    forall i :: 0 <= i < |log| && log[i].Decided? && log[i].about.Some? ==>
                  log[i].about.value in issued && KindFits(log[i].kind, issued[log[i].about.value])
  }

  /** A proposal keeps its content for ever, and decisions about it are of its kind. */
  ghost predicate Typed(w: World) {
    && Contents(w.ps, w.issued) && (forall s :: s in w.saved ==> Contents(s, w.issued)) && w.file in w.saved
    && LogFits(w.log, w.issued)
  }

  /** Reconciling reads the latest decision about `id`: it is among the last records of the log. */
  predicate OnPage(log: Log, id: Id) {
    var i := Latest(log, 0, id);
    i.None? || PageStart(log) <= i.value
  }

  /** What is settled, as far as reconciling reads, cannot be accepted. */
  ghost predicate SettledIsDecided(w: World) {
    forall id :: id in w.ps && Settled(w.log, id) && OnPage(w.log, id) ==> !w.ps[id].state.Awaiting()
  }

  lemma {:induction false} LatestOnPage(log: Log, from: nat, id: Id)
    requires Latest(log, 0, id).Some? && from <= Latest(log, 0, id).value
    ensures Latest(log, from, id) == Latest(log, 0, id)
    decreases |log|
  {
    if !About(log[|log| - 1], id) {
      LatestOnPage(log[..|log| - 1], from, id);
    }
  }

  lemma {:induction false} LatestBeforePage(log: Log, from: nat, id: Id)
    requires Latest(log, 0, id).Some? && Latest(log, 0, id).value < from
    ensures Latest(log, from, id).None?
    decreases |log|
  {
    if from < |log| {
      LatestBeforePage(log[..|log| - 1], from, id);
    }
  }

  /** A decision the end of a run still reads was read all along. */
  lemma OnPageBefore(log: Log, mid: Log, last: Log, id: Id)
    requires log <= mid <= last && Latest(log, 0, id).Some?
    requires PageStart(last) <= Latest(log, 0, id).value
    ensures OnPage(mid, id) && Latest(mid, 0, id).Some? && Latest(log, 0, id).value <= Latest(mid, 0, id).value
  {
    var i := Latest(log, 0, id).value;
    assert mid[i] == log[i];
  }

  // ----- The log after a call -------------------------------------------------------------------------------

  lemma LatestAfter(log: Log, e: Entry, id: Id)
    ensures Latest(log + [e], 0, id) == if About(e, id) then Some(|log|) else Latest(log, 0, id)
    ensures Settled(log + [e], id) <==> if About(e, id) then Final(e) else Settled(log, id)
  {
    assert (log + [e])[..|log|] == log;
  }

  lemma {:induction false} NoDecisionYet(log: Log, issued: map<Id, Content>, id: Id)
    requires LogFits(log, issued) && id !in issued
    ensures Latest(log, 0, id).None?
  {
    forall i | 0 <= i < |log| ensures !About(log[i], id) {
    }
  }

  /** The decision a call records. */
  function DecisionOf(e: Effect): (d: Option<Entry>) {
    if e.writes != [] && e.writes[0].Note? then Some(e.writes[0].entry) else None
  }

  /** Its log after the first `n` writes, outcomes aside. */
  function LogBy(w: World, e: Effect, n: nat): (log: Log) {
    if n == 0 || DecisionOf(e).None? then w.log else w.log + [DecisionOf(e).value]
  }

  /** A decision comes first, and only outcomes follow it. */
  predicate DecisionFirst(e: Effect) {
    && (DecisionOf(e).Some? ==> DecisionOf(e).value.Decided?)
    && (forall i :: 0 < i < |e.writes| && e.writes[i].Note? ==> e.writes[i].entry.Closed?)
  }

  lemma AcceptDecidesFirst(t: Text, others: map<string, string>, w: World, c: Call)
    requires c.Accept?
    ensures DecisionFirst(AcceptEffect(t, others, w, c))
  {
  }

  lemma CallsDecideFirst(t: Text, others: map<string, string>, w: World, c: Call)
    ensures DecisionFirst(EffectOf(t, others, w, c))
  {
    if c.Accept? {
      AcceptDecidesFirst(t, others, w, c);
    }
  }

  /** The world after `n` writes is the one after `n - 1`, and the last of them. */
  lemma OneMoreWrite(w: World, e: Effect, kept: Proposals, n: nat)
    requires 0 < n <= |e.writes|
    ensures AppliedAll(w, e.writes[..n], kept) == Applied(AppliedAll(w, e.writes[..n - 1], kept), e.writes[n - 1], kept)
    ensures AppliedAll(w, e.writes[..0], kept) == w
  {
    assert e.writes[..n][..n - 1] == e.writes[..n - 1];
    assert e.writes[..0] == [];
  }

  /** An outcome is about no proposal. */
  lemma OutcomeSettlesNothing(log: Log, e: Entry, id: Id)
    requires e.Closed?
    ensures Latest(log + [e], 0, id) == Latest(log, 0, id)
    ensures Settled(log + [e], id) <==> Settled(log, id)
    ensures Denied(log + [e], id) <==> Denied(log, id)
  {
    LatestAfter(log, e, id);
  }

  lemma FirstWriteLogs(w: World, e: Effect, kept: Proposals)
    requires DecisionFirst(e) && e.writes != []
    ensures AppliedAll(w, e.writes[..1], kept).log == LogBy(w, e, 1)
  {
    OneMoreWrite(w, e, kept, 1);
  }

  lemma LaterWriteSettlesNothing(w: World, e: Effect, kept: Proposals, n: nat, id: Id)
    requires DecisionFirst(e) && 1 < n <= |e.writes|
    ensures var before, after := AppliedAll(w, e.writes[..n - 1], kept).log, AppliedAll(w, e.writes[..n], kept).log;
            && (Settled(after, id) <==> Settled(before, id)) && (Denied(after, id) <==> Denied(before, id))
            && Latest(after, 0, id) == Latest(before, 0, id)
  {
    OneMoreWrite(w, e, kept, n);
    if e.writes[n - 1].Note? {
      OutcomeSettlesNothing(AppliedAll(w, e.writes[..n - 1], kept).log, e.writes[n - 1].entry, id);
    }
  }

  lemma {:induction false} SettledBy(w: World, e: Effect, kept: Proposals, n: nat, id: Id)
    requires DecisionFirst(e) && n <= |e.writes|
    ensures Settled(AppliedAll(w, e.writes[..n], kept).log, id) <==> Settled(LogBy(w, e, n), id)
    ensures Denied(AppliedAll(w, e.writes[..n], kept).log, id) <==> Denied(LogBy(w, e, n), id)
    ensures Latest(AppliedAll(w, e.writes[..n], kept).log, 0, id) == Latest(LogBy(w, e, n), 0, id)
    decreases n
  {
    if n == 0 {
      assert e.writes[..0] == [];
    } else if n == 1 {
      FirstWriteLogs(w, e, kept);
    } else {
      LaterWriteSettlesNothing(w, e, kept, n, id);
      SettledBy(w, e, kept, n - 1, id);
    }
  }

  lemma {:induction false} LogFitsBy(w: World, e: Effect, kept: Proposals, n: nat, issued: map<Id, Content>)
    requires DecisionFirst(e) && n <= |e.writes| && LogFits(LogBy(w, e, n), issued) && LogFits(w.log, issued)
    ensures LogFits(AppliedAll(w, e.writes[..n], kept).log, issued)
    decreases n
  {
    if n > 0 {
      OneMoreWrite(w, e, kept, n);
      if n > 1 {
        LogFitsBy(w, e, kept, n - 1, issued);
      }
    }
  }

  // ----- What a call may decide --------------------------------------------------------------------------------

  /** The decision fits the proposal it is about, and the proposal's next state fits the decision. */
  ghost predicate DecisionFits(w: World, d: Entry, after: Proposals) {
    d.Decided? && !SetsAside(d) && d.about.Some? ==>
      var id := d.about.value;
      && id in w.ps && KindFits(d.kind, w.ps[id].content) && id in after
      && match d.kind
         case LearnSkill => w.ps[id].state.Awaiting() && (!d.approved ==> after[id].state.Rejected?)
         case LearnMemory => w.ps[id].state.Awaiting() && (!d.approved ==> after[id].state.Rejected?)
         case Resolve => d.approved && d.kept.Some? && w.ps[id].state.Persisted? && after[id].state.Retracted?
         case Publish => d.approved && (w.ps[id].state.Persisted? || w.ps[id].state.PublishPrepared?)
  }

  /** Only the proposal decided about changes its state; an accept that fails leaves it to be decided. */
  ghost predicate OthersStay(w: World, c: Call, d: Option<Entry>, after: Proposals) {
    && (forall id :: id in after && id !in w.ps ==> c.Propose? && id == c.id && after[id].state.Proposed?)
    && (forall id :: id in after && id in w.ps ==> after[id].content == w.ps[id].content)
    && (forall id :: id in after && id in w.ps && !(d.Some? && About(d.value, id)) ==> after[id].state == w.ps[id].state)
    && (forall id :: id in after && id in w.ps && after[id].state.Awaiting() ==> w.ps[id].state.Awaiting())
  }

  lemma AcceptOthersStay(t: Text, others: map<string, string>, w: World, c: Call)
    requires c.Accept?
    ensures OthersStay(w, c, DecisionOf(AcceptEffect(t, others, w, c)), AcceptEffect(t, others, w, c).after)
  {
  }

  lemma ProposeOthersStay(t: Text, others: map<string, string>, w: World, c: Call)
    requires c.Propose? && c.id !in w.ps
    ensures OthersStay(w, c, DecisionOf(ProposeEffect(t, others, w, c)), ProposeEffect(t, others, w, c).after)
  {
  }

  lemma ResolveTwoOthersStay(t: Text, w: World, c: Call)
    requires c.ResolveTwo?
    ensures OthersStay(w, c, DecisionOf(ResolveEffect(t, w, c)), ResolveEffect(t, w, c).after)
  {
  }

  lemma KeepKnownOthersStay(w: World, c: Call)
    requires c.KeepKnown?
    ensures OthersStay(w, c, DecisionOf(KeepKnownEffect(w, c)), KeepKnownEffect(w, c).after)
  {
  }

  lemma PublishOthersStay(t: Text, w: World, c: Call)
    requires c.PreparePublish?
    ensures OthersStay(w, c, DecisionOf(PublishEffect(t, w, c)), PublishEffect(t, w, c).after)
  {
  }

  lemma CallOthersStay(t: Text, others: map<string, string>, w: World, c: Call)
    requires c.Propose? ==> c.id !in w.ps
    ensures OthersStay(w, c, DecisionOf(EffectOf(t, others, w, c)), EffectOf(t, others, w, c).after)
  {
    match c
    case Propose(_, _, _, _, _) => ProposeOthersStay(t, others, w, c);
    case Accept(_, _, _, _, _, _, _) => AcceptOthersStay(t, others, w, c);
    case Reject(_, _, _, _, _) =>
    case ResolveTwo(_, _, _, _, _, _) => ResolveTwoOthersStay(t, w, c);
    case KeepLearned(_, _, _, _, _, _) =>
    case KeepKnown(_, _, _, _, _, _) => KeepKnownOthersStay(w, c);
    case PreparePublish(_, _, _, _, _, _) => PublishOthersStay(t, w, c);
  }

  lemma CallDecides(t: Text, others: map<string, string>, w: World, c: Call)
    ensures var e := EffectOf(t, others, w, c);
            && (DecisionOf(e).Some? ==> DecisionFits(w, DecisionOf(e).value, e.after))
            && (c.Propose? ==> DecisionOf(e).None?)
            && (DecisionOf(e).Some? && DecisionOf(e).value.Decided? && DecisionOf(e).value.about.Some? ==>
                  !SetsAside(DecisionOf(e).value))
  {
  }

  // ----- Types are kept --------------------------------------------------------------------------------------------

  lemma IssuedGrows(t: Text, others: map<string, string>, w: World, c: Call)
    requires FreshIds(w, c)
    ensures var issued := Issued(w, c, EffectOf(t, others, w, c));
            forall id :: id in w.issued ==> id in issued && issued[id] == w.issued[id]
  {
  }

  lemma ContentsGrow(ps: Proposals, issued: map<Id, Content>, more: map<Id, Content>)
    requires Contents(ps, issued) && forall id :: id in issued ==> id in more && more[id] == issued[id]
    ensures Contents(ps, more)
  {
  }

  lemma AfterContents(t: Text, others: map<string, string>, w: World, c: Call)
    requires Contents(w.ps, w.issued) && FreshIds(w, c)
    ensures Contents(EffectOf(t, others, w, c).after, Issued(w, c, EffectOf(t, others, w, c)))
  {
    assert c.Propose? ==> c.id !in w.ps;
    CallOthersStay(t, others, w, c);
  }

  lemma NewContents(t: Text, others: map<string, string>, w: World, c: Call, kept: Proposals)
    requires Typed(w) && FreshIds(w, c) && KeptFrom(EffectOf(t, others, w, c), kept)
    ensures var issued := Issued(w, c, EffectOf(t, others, w, c));
            && Contents(kept, issued) && (forall s :: s in w.saved ==> Contents(s, issued))
            && (forall id :: id in w.issued ==> id in issued && issued[id] == w.issued[id])
  {
    var e := EffectOf(t, others, w, c);
    var issued := Issued(w, c, e);
    IssuedGrows(t, others, w, c);
    AfterContents(t, others, w, c);
    KeptContents(e, kept, issued);
    forall s | s in w.saved ensures Contents(s, issued) {
      ContentsGrow(s, w.issued, issued);
    }
  }

  lemma KeptContents(e: Effect, kept: Proposals, issued: map<Id, Content>)
    requires KeptFrom(e, kept) && Contents(e.after, issued)
    ensures Contents(kept, issued)
  {
  }

  lemma LogStillFits(w: World, e: Effect, n: nat, issued: map<Id, Content>)
    requires Typed(w) && (forall id :: id in w.issued ==> id in issued && issued[id] == w.issued[id])
    requires DecisionOf(e).Some? ==> DecisionFits(w, DecisionOf(e).value, e.after)
    requires DecisionOf(e).Some? && DecisionOf(e).value.Decided? && DecisionOf(e).value.about.Some? ==>
               !SetsAside(DecisionOf(e).value)
    ensures LogFits(LogBy(w, e, n), issued) && LogFits(w.log, issued)
  {
  }

  /** The world on disk after `n` writes of a call. */
  function DiskAfter(t: Text, others: map<string, string>, w: World, c: Call, kept: Proposals, n: nat): (w1: World)
    requires n <= |EffectOf(t, others, w, c).writes|
  {
    var e := EffectOf(t, others, w, c);
    AppliedAll(w, e.writes[..n], kept).(issued := Issued(w, c, e))
  }

  predicate KeptFrom(e: Effect, kept: Proposals) {
    if e.saves then IsPruned(e.after, kept) else kept == e.after
  }

  lemma DiskIsTyped(t: Text, others: map<string, string>, w: World, c: Call, kept: Proposals, n: nat)
    requires Typed(w) && FreshIds(w, c) && KeptFrom(EffectOf(t, others, w, c), kept)
    requires n <= |EffectOf(t, others, w, c).writes|
    ensures var w1 := DiskAfter(t, others, w, c, kept, n);
            && LogFits(w1.log, w1.issued) && Contents(kept, w1.issued) && w1.file in w1.saved
            && (forall s :: s in w1.saved ==> Contents(s, w1.issued))
  {
    var e := EffectOf(t, others, w, c);
    NewContents(t, others, w, c, kept);
    CallDecides(t, others, w, c);
    CallsDecideFirst(t, others, w, c);
    LogStillFits(w, e, n, Issued(w, c, e));
    LogFitsBy(w, e, kept, n, Issued(w, c, e));
    AppliedKeeps(w, e.writes[..n], kept);
    SavedFile(w, e.writes[..n], kept);
  }

  lemma {:induction false} SavedFile(w: World, writes: seq<Write>, kept: Proposals)
    requires w.file in w.saved
    ensures var r := AppliedAll(w, writes, kept); r.file in r.saved
    decreases |writes|
  {
    if writes != [] {
      SavedFile(w, writes[..|writes| - 1], kept);
    }
  }

  // ----- What is settled stays decided --------------------------------------------------------------------------------

  lemma CallKeepsDecided(t: Text, others: map<string, string>, w: World, c: Call, id: Id)
    requires Typed(w) && SettledIsDecided(w) && FreshIds(w, c)
    requires var e := EffectOf(t, others, w, c); id in e.after && Settled(LogBy(w, e, |e.writes|), id)
    requires Latest(LogBy(w, EffectOf(t, others, w, c), |EffectOf(t, others, w, c).writes|), 0, id) == Latest(w.log, 0, id) ==>
               OnPage(w.log, id)
    ensures !EffectOf(t, others, w, c).after[id].state.Awaiting()
  {
    var e := EffectOf(t, others, w, c);
    var d := DecisionOf(e);
    assert c.Propose? ==> c.id !in w.ps;
    CallDecides(t, others, w, c);
    CallOthersStay(t, others, w, c);
    if d.Some? {
      LatestAfter(w.log, d.value, id);
    }
    if id !in w.ps {
      NoDecisionYet(w.log, w.issued, id);
    }
  }

  /** A settled proposal is decided once the log is reconciled, whatever file it came from. */
  lemma ReconciledIsDecided(t: Text, p: Proposal, id: Id, log: Log, folder: map<string, string>)
    requires OnPage(log, id) && Settled(log, id)
    requires KindFits(log[Latest(log, 0, id).value].kind, p.content)
    ensures !Reconciled(t, p, id, log, folder).state.Awaiting()
  {
    LatestOnPage(log, PageStart(log), id);
  }

  lemma ReopenIsDecided(t: Text, w: World, snapshot: Proposals, kept: Proposals, w': World)
    requires LogFits(w.log, w.issued) && (forall s :: s in w.saved ==> Contents(s, w.issued))
    requires Reopened(t, w, snapshot, kept, w')
    ensures SettledIsDecided(w')
  {
    var ps := Reconcile(t, snapshot, w.log, w.folder);
    forall id | id in ps && Settled(w.log, id) && OnPage(w.log, id) ensures !ps[id].state.Awaiting() {
      ReconciledIsDecided(t, snapshot[id], id, w.log, w.folder);
    }
  }

  lemma ReopenIsTyped(t: Text, w: World, snapshot: Proposals, kept: Proposals, w': World)
    requires LogFits(w.log, w.issued) && (forall s :: s in w.saved ==> Contents(s, w.issued)) && w.file in w.saved
    requires Reopened(t, w, snapshot, kept, w')
    ensures Typed(w') && w'.log == w.log && w'.issued == w.issued
  {
    assert Contents(Reconcile(t, snapshot, w.log, w.folder), w.issued);
  }

  lemma DoKeepsTyped(
      t: Text, others: map<string, string>, w: World, c: Call, kept: Proposals, kept1: Proposals, w': World)
    requires Typed(w) && Step(t, others, w, Do(c), kept, kept1, w')
    ensures Typed(w') && w.log <= w'.log && w'.issued == Issued(w, c, EffectOf(t, others, w, c))
  {
    var e := EffectOf(t, others, w, c);
    DiskIsTyped(t, others, w, c, kept, |e.writes|);
    AppliedKeeps(w, e.writes, kept);
    assert e.writes[..|e.writes|] == e.writes;
  }

  lemma DieKeepsTyped(
      t: Text, others: map<string, string>, w: World, ev: Event, kept: Proposals, kept1: Proposals, w': World)
    requires ev.Die? && Typed(w) && Step(t, others, w, ev, kept, kept1, w')
    ensures Typed(w') && w.log <= w'.log && w'.issued == Issued(w, ev.call, EffectOf(t, others, w, ev.call))
  {
    DiskIsTyped(t, others, w, ev.call, kept, ev.writes);
    AppliedKeeps(w, EffectOf(t, others, w, ev.call).writes[..ev.writes], kept);
    ReopenIsTyped(t, DiskAfter(t, others, w, ev.call, kept, ev.writes), ev.snapshot, kept1, w');
  }

  lemma StepKeepsTyped(
      t: Text, others: map<string, string>, w: World, ev: Event, kept: Proposals, kept1: Proposals, w': World)
    requires Typed(w) && Step(t, others, w, ev, kept, kept1, w')
    ensures Typed(w') && w.log <= w'.log
    ensures forall id :: id in w.issued ==> id in w'.issued && w'.issued[id] == w.issued[id]
  {
    match ev
    case MemberEdits(_) =>
    case Do(c) =>
      DoKeepsTyped(t, others, w, c, kept, kept1, w');
      IssuedGrows(t, others, w, c);
    case Die(c, _, _) =>
      DieKeepsTyped(t, others, w, ev, kept, kept1, w');
      IssuedGrows(t, others, w, c);
  }

  /** The invariant of all runs. */
  lemma StepKeepsDecided(
      t: Text, others: map<string, string>, w: World, ev: Event, kept: Proposals, kept1: Proposals, w': World)
    requires Typed(w) && SettledIsDecided(w) && Step(t, others, w, ev, kept, kept1, w')
    ensures SettledIsDecided(w')
  {
    match ev
    case MemberEdits(_) =>
    case Do(c) =>
      var e := EffectOf(t, others, w, c);
      assert e.writes[..|e.writes|] == e.writes;
      CallsDecideFirst(t, others, w, c);
      AppliedKeeps(w, e.writes, kept);
      forall id | id in kept && Settled(w'.log, id) && OnPage(w'.log, id) ensures !kept[id].state.Awaiting() {
        SettledBy(w, e, kept, |e.writes|, id);
        CallKeepsDecided(t, others, w, c, id);
      }
    case Die(c, n, snapshot) =>
      DiskIsTyped(t, others, w, c, kept, n);
      ReopenIsDecided(t, DiskAfter(t, others, w, c, kept, n), snapshot, kept1, w');
  }

  /** A publish of the skill was recorded in between. */
  predicate PublishedSince(before: Log, log: Log, id: Id) {
    exists i :: |before| <= i < |log| && About(log[i], id) && log[i].kind == Publish
  }

  lemma {:induction false} LogByIsThere(w: World, e: Effect, kept: Proposals, n: nat)
    requires n <= |e.writes|
    ensures LogBy(w, e, n) <= AppliedAll(w, e.writes[..n], kept).log
    decreases n
  {
    if n > 0 {
      OneMoreWrite(w, e, kept, n);
      if n > 1 {
        LogByIsThere(w, e, kept, n - 1);
      }
    }
  }

  lemma CallKeepsSettled(t: Text, others: map<string, string>, w: World, c: Call, kept: Proposals, n: nat, id: Id)
    requires Typed(w) && SettledIsDecided(w) && Settled(w.log, id) && OnPage(w.log, id)
    requires n <= |EffectOf(t, others, w, c).writes|
    ensures var log := AppliedAll(w, EffectOf(t, others, w, c).writes[..n], kept).log;
            Settled(log, id) || (id in w.issued && w.issued[id].Skill? && PublishedSince(w.log, log, id))
  {
    var e := EffectOf(t, others, w, c);
    var d := DecisionOf(e);
    CallDecides(t, others, w, c);
    CallsDecideFirst(t, others, w, c);
    SettledBy(w, e, kept, n, id);
    LogByIsThere(w, e, kept, n);
    if n > 0 && d.Some? {
      LatestAfter(w.log, d.value, id);
      if About(d.value, id) && !Final(d.value) {
        assert d.value.kind == Publish;
        assert AppliedAll(w, e.writes[..n], kept).log[|w.log|] == d.value;
      }
    }
  }

  lemma StepKeepsSettled(
      t: Text, others: map<string, string>, w: World, ev: Event, kept: Proposals, kept1: Proposals, w': World, id: Id)
    requires Typed(w) && SettledIsDecided(w) && Step(t, others, w, ev, kept, kept1, w')
    requires Settled(w.log, id) && OnPage(w.log, id)
    ensures Settled(w'.log, id) || (id in w.issued && w.issued[id].Skill? && PublishedSince(w.log, w'.log, id))
  {
    match ev
    case MemberEdits(_) =>
    case Do(c) =>
      var e := EffectOf(t, others, w, c);
      assert e.writes[..|e.writes|] == e.writes;
      CallKeepsSettled(t, others, w, c, kept, |e.writes|, id);
    case Die(c, n, snapshot) =>
      CallKeepsSettled(t, others, w, c, kept, n, id);
  }

  // ----- With the last saved file -----------------------------------------------------------------------------------------

  /** The file is never ahead of memory, and what is rejected is nowhere further than that. */
  ghost predicate FileIsBehind(w: World) {
    && (forall id :: id in w.ps && w.ps[id].state.Awaiting() && id in w.file ==> w.file[id].state.Awaiting())
    && (forall id :: id in w.ps && Denied(w.log, id) ==> w.ps[id].state.Awaiting() || w.ps[id].state.Rejected?)
    && (forall id :: id in w.ps && Denied(w.log, id) && OnPage(w.log, id) ==> w.ps[id].state.Rejected?)
    && RejectedOnFile(w)
  }

  ghost predicate RejectedOnFile(w: World) {
    forall id :: id in w.file && Denied(w.log, id) ==> w.file[id].state.Awaiting() || w.file[id].state.Rejected?
  }

  /** The event reopens on the file saved last, if it reopens. */
  predicate OnLastFile(t: Text, others: map<string, string>, w: World, ev: Event, kept: Proposals) {
    ev.Die? ==>
      && ev.writes <= |EffectOf(t, others, w, ev.call).writes|
      && ev.snapshot == DiskAfter(t, others, w, ev.call, kept, ev.writes).file
  }

  lemma DeniedAfter(log: Log, e: Entry, id: Id)
    ensures Denied(log + [e], id) <==>
            if About(e, id) then e.kind != Publish && e.kind != Resolve && !e.approved else Denied(log, id)
  {
    LatestAfter(log, e, id);
  }

  /** A reject that stands can only be followed by nothing: whatever a call records, it is about another
      proposal. */
  lemma RejectStands(t: Text, others: map<string, string>, w: World, c: Call, n: nat, id: Id)
    requires FileIsBehind(w) && Denied(w.log, id) && OnPage(w.log, id)
    ensures Denied(LogBy(w, EffectOf(t, others, w, c), n), id)
  {
    CallDecides(t, others, w, c);
    var d := DecisionOf(EffectOf(t, others, w, c));
    if d.Some? {
      DeniedAfter(w.log, d.value, id);
    }
  }

  /** What a call leaves in memory and what it saves are behind each other in the right order. */
  lemma CallStaysBehind(t: Text, others: map<string, string>, w: World, c: Call, id: Id)
    requires Typed(w) && FileIsBehind(w) && FreshIds(w, c)
    ensures var e := EffectOf(t, others, w, c);
            && (id in e.after && e.after[id].state.Awaiting() && id in w.file ==> w.file[id].state.Awaiting())
            && (id in e.after && Denied(LogBy(w, e, |e.writes|), id) ==>
                  e.after[id].state.Awaiting() || e.after[id].state.Rejected?)
            && (id in e.after && Denied(LogBy(w, e, |e.writes|), id)
                && (OnPage(w.log, id) || Latest(LogBy(w, e, |e.writes|), 0, id) != Latest(w.log, 0, id)) ==>
                  e.after[id].state.Rejected?)
            && (forall n: nat :: n <= |e.writes| && id in w.file && Denied(LogBy(w, e, n), id) ==>
                  w.file[id].state.Awaiting() || w.file[id].state.Rejected?)
  {
    var e := EffectOf(t, others, w, c);
    var d := DecisionOf(e);
    assert c.Propose? ==> c.id !in w.ps;
    CallDecides(t, others, w, c);
    CallOthersStay(t, others, w, c);
    assert w.file in w.saved;
    if d.Some? {
      DeniedAfter(w.log, d.value, id);
    }
    if id !in w.issued {
      NoDecisionYet(w.log, w.issued, id);
    }
  }

  lemma ReopenStaysBehind(t: Text, w: World, kept: Proposals, w': World)
    requires LogFits(w.log, w.issued) && Contents(w.file, w.issued) && RejectedOnFile(w)
    requires Reopened(t, w, w.file, kept, w')
    ensures FileIsBehind(w')
  {
    var ps := Reconcile(t, w.file, w.log, w.folder);
    forall id | id in ps && Denied(w.log, id)
      ensures ps[id].state.Awaiting() || ps[id].state.Rejected?
      ensures OnPage(w.log, id) ==> ps[id].state.Rejected?
    {
      assert w.file[id].state.Awaiting() || w.file[id].state.Rejected?;
      if OnPage(w.log, id) {
        LatestOnPage(w.log, PageStart(w.log), id);
      } else {
        LatestBeforePage(w.log, PageStart(w.log), id);
      }
    }
  }

  lemma FileAfter(w: World, e: Effect, kept: Proposals, n: nat)
    requires n <= |e.writes|
    ensures var w1 := AppliedAll(w, e.writes[..n], kept);
            w1.file == w.file || (w1.file == kept && n > 0)
  {
    AppliedKeeps(w, e.writes[..n], kept);
  }

  lemma DiskStaysBehind(t: Text, others: map<string, string>, w: World, c: Call, kept: Proposals, n: nat)
    requires Typed(w) && FileIsBehind(w) && FreshIds(w, c) && KeptFrom(EffectOf(t, others, w, c), kept)
    requires n <= |EffectOf(t, others, w, c).writes|
    ensures RejectedOnFile(DiskAfter(t, others, w, c, kept, n))
  {
    var e := EffectOf(t, others, w, c);
    var w1 := DiskAfter(t, others, w, c, kept, n);
    CallsDecideFirst(t, others, w, c);
    FileAfter(w, e, kept, n);
    forall id | id in w1.file && Denied(w1.log, id) ensures w1.file[id].state.Awaiting() || w1.file[id].state.Rejected? {
      SettledBy(w, e, kept, n, id);
      CallStaysBehind(t, others, w, c, id);
    }
  }

  lemma KeptStaysBehind(t: Text, others: map<string, string>, w: World, c: Call, kept: Proposals, id: Id)
    requires Typed(w) && FileIsBehind(w) && FreshIds(w, c) && KeptFrom(EffectOf(t, others, w, c), kept)
    requires id in kept
    ensures var e := EffectOf(t, others, w, c);
            var log := AppliedAll(w, e.writes[..|e.writes|], kept).log;
            && (kept[id].state.Awaiting() && id in w.file ==> w.file[id].state.Awaiting())
            && (Denied(log, id) ==> kept[id].state.Awaiting() || kept[id].state.Rejected?)
            && (Denied(log, id) && OnPage(log, id) ==> kept[id].state.Rejected?)
  {
    var e := EffectOf(t, others, w, c);
    var n := |e.writes|;
    CallsDecideFirst(t, others, w, c);
    SettledBy(w, e, kept, n, id);
    CallStaysBehind(t, others, w, c, id);
    AppliedKeeps(w, e.writes[..n], kept);
  }

  lemma MemoryStaysBehind(t: Text, others: map<string, string>, w: World, c: Call, kept: Proposals)
    requires Typed(w) && FileIsBehind(w) && FreshIds(w, c) && KeptFrom(EffectOf(t, others, w, c), kept)
    ensures FileIsBehind(DiskAfter(t, others, w, c, kept, |EffectOf(t, others, w, c).writes|).(ps := kept))
  {
    var n := |EffectOf(t, others, w, c).writes|;
    DiskStaysBehind(t, others, w, c, kept, n);
    FileAfter(w, EffectOf(t, others, w, c), kept, n);
    forall id | id in kept
      ensures var w1 := DiskAfter(t, others, w, c, kept, n).(ps := kept);
              && (kept[id].state.Awaiting() && id in w1.file ==> w1.file[id].state.Awaiting())
              && (Denied(w1.log, id) ==> kept[id].state.Awaiting() || kept[id].state.Rejected?)
              && (Denied(w1.log, id) && OnPage(w1.log, id) ==> kept[id].state.Rejected?)
    {
      KeptStaysBehind(t, others, w, c, kept, id);
    }
  }

  lemma StepStaysBehind(
      t: Text, others: map<string, string>, w: World, ev: Event, kept: Proposals, kept1: Proposals, w': World)
    requires Typed(w) && FileIsBehind(w) && Step(t, others, w, ev, kept, kept1, w')
    requires OnLastFile(t, others, w, ev, kept)
    ensures FileIsBehind(w')
  {
    match ev
    case MemberEdits(_) =>
    case Do(c) =>
      var e := EffectOf(t, others, w, c);
      assert e.writes[..|e.writes|] == e.writes;
      MemoryStaysBehind(t, others, w, c, kept);
    case Die(c, n, snapshot) =>
      DiskIsTyped(t, others, w, c, kept, n);
      DiskStaysBehind(t, others, w, c, kept, n);
      ReopenStaysBehind(t, DiskAfter(t, others, w, c, kept, n), kept1, w');
  }

  lemma StepKeepsDenied(
      t: Text, others: map<string, string>, w: World, ev: Event, kept: Proposals, kept1: Proposals, w': World, id: Id)
    requires FileIsBehind(w) && Step(t, others, w, ev, kept, kept1, w') && Denied(w.log, id) && OnPage(w.log, id)
    ensures Denied(w'.log, id)
  {
    if !ev.MemberEdits? {
      var e := EffectOf(t, others, w, ev.call);
      var n := if ev.Die? then ev.writes else |e.writes|;
      assert e.writes[..|e.writes|] == e.writes;
      CallsDecideFirst(t, others, w, ev.call);
      RejectStands(t, others, w, ev.call, n, id);
      SettledBy(w, e, kept, n, id);
    }
  }
}
