/** Rejections and retractions are final: which runs of the learner keep them, and which do not. */
module LearnFinality {
  import opened LearnModel
  import opened LearnCalls
  import opened LearnRuns
  import opened LearnSteps

  // ----- Whole runs ----------------------------------------------------------------------------------------------------

  datatype Moment = Moment(ev: Event, kept: Proposals, kept1: Proposals, after: World)

  ghost predicate IsRun(t: Text, others: map<string, string>, w: World, run: seq<Moment>)
    decreases |run|
  {
    run != [] ==>
      && Step(t, others, w, run[0].ev, run[0].kept, run[0].kept1, run[0].after)
      && IsRun(t, others, run[0].after, run[1..])
  }

  function End(w: World, run: seq<Moment>): (r: World) {
    if run == [] then w else run[|run| - 1].after
  }

  function Start(folder: map<string, string>): (w: World) {
    World(map[], [], folder, map[], {map[]}, map[])
  }

  lemma {:induction false} RunKeepsAgreement(t: Text, others: map<string, string>, w: World, run: seq<Moment>)
    requires Typed(w) && AllAgree(t, w) && IsRun(t, others, w, run)
    ensures Typed(End(w, run)) && AllAgree(t, End(w, run)) && w.log <= End(w, run).log
    ensures forall id :: id in w.issued ==> id in End(w, run).issued && End(w, run).issued[id] == w.issued[id]
    decreases |run|
  {
    if run != [] {
      var m := run[0];
      StepKeepsTyped(t, others, w, m.ev, m.kept, m.kept1, m.after);
      StepKeepsAgreement(t, others, w, m.ev, m.kept, m.kept1, m.after);
      RunKeepsAgreement(t, others, m.after, run[1..]);
      assert End(w, run) == End(m.after, run[1..]);
    }
  }

  /** From a first start on, after any calls and crashes, on any proposals file ever saved: two persisted
      memories on one key differ in value, and one of them records the other. */
  lemma EveryRunAgrees(t: Text, others: map<string, string>, folder: map<string, string>, run: seq<Moment>)
    requires IsRun(t, others, Start(folder), run)
    ensures AllAgree(t, End(Start(folder), run)) && Typed(End(Start(folder), run))
  {
    RunKeepsAgreement(t, others, Start(folder), run);
  }

  /** In every run, whatever file each reopening finds: what the log settles, as far as reconciling reads it,
      cannot be accepted. */
  lemma {:induction false} RunKeepsDecided(t: Text, others: map<string, string>, w: World, run: seq<Moment>)
    requires Typed(w) && SettledIsDecided(w) && IsRun(t, others, w, run)
    ensures Typed(End(w, run)) && SettledIsDecided(End(w, run)) && w.log <= End(w, run).log
    decreases |run|
  {
    if run != [] {
      var m := run[0];
      StepKeepsTyped(t, others, w, m.ev, m.kept, m.kept1, m.after);
      StepKeepsDecided(t, others, w, m.ev, m.kept, m.kept1, m.after);
      RunKeepsDecided(t, others, m.after, run[1..]);
      assert End(w, run) == End(m.after, run[1..]);
    }
  }

  lemma {:induction false} RunKeepsSettled(t: Text, others: map<string, string>, w: World, run: seq<Moment>, id: Id)
    requires Typed(w) && SettledIsDecided(w) && IsRun(t, others, w, run) && Settled(w.log, id)
    requires PageStart(End(w, run).log) <= Latest(w.log, 0, id).value
    ensures Settled(End(w, run).log, id)
         || (id in w.issued && w.issued[id].Skill? && PublishedSince(w.log, End(w, run).log, id))
    decreases |run|
  {
    if run != [] {
      var m := run[0];
      StepKeepsTyped(t, others, w, m.ev, m.kept, m.kept1, m.after);
      StepKeepsDecided(t, others, w, m.ev, m.kept, m.kept1, m.after);
      RunKeepsDecided(t, others, m.after, run[1..]);
      assert End(w, run) == End(m.after, run[1..]);
      OnPageBefore(w.log, w.log, End(w, run).log, id);
      StepKeepsSettled(t, others, w, m.ev, m.kept, m.kept1, m.after, id);
      if Settled(m.after.log, id) {
        OnPageBefore(w.log, m.after.log, End(w, run).log, id);
        RunKeepsSettled(t, others, m.after, run[1..], id);
      }
    }
  }

  /** A reject or a retraction is final in any run, whichever proposals file each reopening finds, as long as
      no publish of it is recorded later and reconciling still reads the decision in the end. Neither condition
      can be dropped: `RejectedSkillComesBack`, `UnreadRejectComesBack`. */
  lemma {:induction false} SettledStays(t: Text, others: map<string, string>, w: World, run: seq<Moment>, id: Id)
    requires Typed(w) && SettledIsDecided(w) && IsRun(t, others, w, run) && Settled(w.log, id)
    requires PageStart(End(w, run).log) <= Latest(w.log, 0, id).value
    requires !PublishedSince(w.log, End(w, run).log, id)
    ensures Settled(End(w, run).log, id)
    ensures id in End(w, run).ps ==> !End(w, run).ps[id].state.Awaiting()
  {
    RunKeepsDecided(t, others, w, run);
    RunKeepsSettled(t, others, w, run, id);
    OnPageBefore(w.log, End(w, run).log, End(w, run).log, id);
  }

  /** A memory is never published, so one that was rejected or retracted once can never be accepted again. */
  lemma {:induction false} MemoryFinality(t: Text, others: map<string, string>, w: World, run: seq<Moment>, id: Id)
    requires Typed(w) && SettledIsDecided(w) && IsRun(t, others, w, run)
    requires id in w.issued && w.issued[id].Memory? && Settled(w.log, id)
    requires PageStart(End(w, run).log) <= Latest(w.log, 0, id).value
    ensures Settled(End(w, run).log, id)
    ensures id in End(w, run).ps ==> !End(w, run).ps[id].state.Awaiting()
  {
    RunKeepsDecided(t, others, w, run);
    RunKeepsSettled(t, others, w, run, id);
    OnPageBefore(w.log, End(w, run).log, End(w, run).log, id);
  }

  // ----- With the last saved file ------------------------------------------------------------------------

  ghost predicate OnLastFiles(t: Text, others: map<string, string>, w: World, run: seq<Moment>)
    decreases |run|
  {
    run != [] ==>
      && OnLastFile(t, others, w, run[0].ev, run[0].kept)
      && OnLastFiles(t, others, run[0].after, run[1..])
  }

  lemma {:induction false} RunStaysBehind(t: Text, others: map<string, string>, w: World, run: seq<Moment>)
    requires Typed(w) && FileIsBehind(w) && IsRun(t, others, w, run) && OnLastFiles(t, others, w, run)
    ensures Typed(End(w, run)) && FileIsBehind(End(w, run)) && w.log <= End(w, run).log
    decreases |run|
  {
    if run != [] {
      var m := run[0];
      StepKeepsTyped(t, others, w, m.ev, m.kept, m.kept1, m.after);
      StepStaysBehind(t, others, w, m.ev, m.kept, m.kept1, m.after);
      RunStaysBehind(t, others, m.after, run[1..]);
      assert End(w, run) == End(m.after, run[1..]);
    }
  }

  /** When every reopening finds the file that was saved last, however many saves failed since, a reject
      stands, for skills and memories alike, publishes or not. */
  lemma {:induction false} RejectIsFinal(t: Text, others: map<string, string>, w: World, run: seq<Moment>, id: Id)
    requires Typed(w) && FileIsBehind(w) && IsRun(t, others, w, run) && OnLastFiles(t, others, w, run)
    requires Denied(w.log, id) && PageStart(End(w, run).log) <= Latest(w.log, 0, id).value
    ensures Denied(End(w, run).log, id)
    ensures id in End(w, run).ps ==> End(w, run).ps[id].state.Rejected?
    decreases |run|
  {
    RunStaysBehind(t, others, w, run);
    OnPageBefore(w.log, End(w, run).log, End(w, run).log, id);
    if run != [] {
      var m := run[0];
      StepKeepsTyped(t, others, w, m.ev, m.kept, m.kept1, m.after);
      StepStaysBehind(t, others, w, m.ev, m.kept, m.kept1, m.after);
      RunStaysBehind(t, others, m.after, run[1..]);
      assert End(w, run) == End(m.after, run[1..]);
      OnPageBefore(w.log, w.log, End(w, run).log, id);
      StepKeepsDenied(t, others, w, m.ev, m.kept, m.kept1, m.after, id);
      OnPageBefore(w.log, m.after.log, End(w, run).log, id);
      RejectIsFinal(t, others, m.after, run[1..], id);
    }
  }

  /** A first start is such a state. */
  lemma StartIsFine(t: Text, folder: map<string, string>)
    ensures var w := Start(folder);
            Typed(w) && AllAgree(t, w) && SettledIsDecided(w) && FileIsBehind(w)
  {
  }

  /** Nothing need be known of the state a decision is made in but that a run from a first start led there. */
  lemma {:induction false} DecisionsStand(
      t: Text, others: map<string, string>, folder: map<string, string>, before: seq<Moment>, later: seq<Moment>, id: Id)
    requires IsRun(t, others, Start(folder), before) && IsRun(t, others, End(Start(folder), before), later)
    requires var w := End(Start(folder), before);
             Settled(w.log, id) && PageStart(End(w, later).log) <= Latest(w.log, 0, id).value
    ensures var w, v := End(Start(folder), before), End(End(Start(folder), before), later);
            && (!PublishedSince(w.log, v.log, id) || (id in w.issued && w.issued[id].Memory?) ==>
                  Settled(v.log, id) && (id in v.ps ==> !v.ps[id].state.Awaiting()))
            && (Denied(w.log, id) && OnLastFiles(t, others, Start(folder), before) && OnLastFiles(t, others, w, later) ==>
                  id in v.ps ==> v.ps[id].state.Rejected?)
  {
    var w := End(Start(folder), before);
    StartIsFine(t, folder);
    RunKeepsDecided(t, others, Start(folder), before);
    if id in w.issued && w.issued[id].Memory? {
      MemoryFinality(t, others, w, later, id);
    } else if !PublishedSince(w.log, End(w, later).log, id) {
      SettledStays(t, others, w, later, id);
    }
    if Denied(w.log, id) && OnLastFiles(t, others, Start(folder), before) && OnLastFiles(t, others, w, later) {
      RunStaysBehind(t, others, Start(folder), before);
      RejectIsFinal(t, others, w, later, id);
    }
  }

  // ----- A lost accept ---------------------------------------------------------------------------------------

  /** The last accept of the skill `id` that the log holds, and reconciling reads it. */
  predicate LastAccept(log: Log, id: Id, i: nat) {
    && PageStart(log) <= i < |log| && About(log[i], id) && log[i].kind == LearnSkill && log[i].approved
    && forall j :: i < j < |log| && About(log[j], id) ==> !(log[j].kind == LearnSkill && log[j].approved)
  }

  /** Later decisions about the skill are rejects and publishes. */
  lemma AfterLastAccept(log: Log, issued: map<Id, Content>, id: Id, i: nat, j: nat)
    requires LogFits(log, issued) && id in issued && issued[id].Skill?
    requires LastAccept(log, id, i) && i < j < |log| && About(log[j], id)
    ensures log[j].kind == Publish || (log[j].kind == LearnSkill && !log[j].approved)
  {
  }

  lemma LostAcceptMoves(t: Text, p: Proposal, id: Id, log: Log, issued: map<Id, Content>, folder: map<string, string>, i: nat)
    requires LogFits(log, issued) && id in issued && issued[id] == p.content && p.content.Skill? && p.state.Proposed?
    requires LastAccept(log, id, i) && CompletedIn(log, PageStart(log), i) && OnDisk(t, p.content, folder)
    ensures var st := Reconciled(t, p, id, log, folder).state;
            && (st.Persisted? <==> forall j :: i < j < |log| ==> !About(log[j], id))
            && (!st.Persisted? ==> if log[Latest(log, 0, id).value].kind == Publish then st.Proposed? else st.Rejected?)
  {
    var l := Latest(log, 0, id).value;
    LatestOnPage(log, PageStart(log), id);
    if l != i {
      AfterLastAccept(log, issued, id, i, l);
    }
  }

  /** What reopening leaves of a proposal on file; one that awaits a decision is not dropped. */
  lemma ReopenedHolds(t: Text, w: World, snapshot: Proposals, kept: Proposals, w': World, id: Id)
    requires Reopened(t, w, snapshot, kept, w') && id in snapshot
    ensures id in w'.ps ==> w'.ps[id] == Reconciled(t, snapshot[id], id, w.log, w.folder)
    ensures Reconciled(t, snapshot[id], id, w.log, w.folder).state.Awaiting() ==> id in w'.ps
  {
    assert Reconcile(t, snapshot, w.log, w.folder)[id] == Reconciled(t, snapshot[id], id, w.log, w.folder);
  }

  /** A skill whose accept was recorded as completed and whose file is there, but which the proposals file
      still shows as proposed, is repaired by reopening if and only if no decision about it was recorded since
      its last accept: the file may be one decision behind, not two. After a publish it is offered again. */
  lemma LostAcceptIsRepairedExactly(
      t: Text, w: World, snapshot: Proposals, kept: Proposals, w': World, id: Id, i: nat)
    requires LogFits(w.log, w.issued) && Contents(snapshot, w.issued) && Reopened(t, w, snapshot, kept, w')
    requires id in snapshot && snapshot[id].content.Skill? && snapshot[id].state.Proposed?
    requires LastAccept(w.log, id, i) && CompletedIn(w.log, PageStart(w.log), i)
    requires OnDisk(t, snapshot[id].content, w.folder)
    ensures id in w'.ps ==>
              (w'.ps[id].state.Persisted? <==> forall j :: i < j < |w.log| ==> !About(w.log[j], id))
    ensures id in w'.ps && !w'.ps[id].state.Persisted? && !w'.ps[id].state.Proposed? ==> w'.ps[id].state.Rejected?
    ensures w.log[Latest(w.log, 0, id).value].kind == Publish ==> id in w'.ps && w'.ps[id].state.Proposed?
  {
    LostAcceptMoves(t, snapshot[id], id, w.log, w.issued, w.folder, i);
    ReopenedHolds(t, w, snapshot, kept, w', id);
    assert w.log[Latest(w.log, 0, id).value].kind == Publish ==> Latest(w.log, 0, id).value != i;
  }
}
