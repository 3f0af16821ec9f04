/** Runs of the learner in which a decision is not final, or not repaired.

    Each is built event by event from `Start`: a skill is proposed, accepted, rejected or published, the
    process dies, and it is reopened on a proposals file it has saved. `Leads` says that a run ends in a
    given world, closed so that long runs are put together without unfolding the short ones. */
module LearnWitness {
  import opened Wrappers
  import opened LearnModel
  import opened LearnCalls
  import opened LearnSteps
  import opened LearnFinality

  /** Texts that are their own normal form; a skill's text is its name. */
  const TEXT := Text(
    (k: string) => k, (v: string) => v, (s: string) => s, (k: string, v: string) => true, (md: string) => Some(md))

  const FIRST := Skill("first")

  const SECOND := Skill("second")

  function Shown(content: Content, st: ProposalState): (p: Proposal) {
    Proposal(content, 0, {}, st, {})
  }

  /** Only the first skill has been proposed. */
  function Only(st: ProposalState): (ps: Proposals) {
    map[0 := Shown(FIRST, st)]
  }

  // ----- Building runs -----------------------------------------------------------------------------------

  lemma EndOfRest(w: World, run: seq<Moment>)
    requires run != []
    ensures End(run[0].after, run[1..]) == End(w, run)
  {
  }

  lemma EndConcat(w: World, a: seq<Moment>, b: seq<Moment>)
    ensures End(w, a + b) == End(End(w, a), b)
  {
    if b == [] {
      assert a + b == a;
    } else {
      assert (a + b)[|a + b| - 1] == b[|b| - 1];
    }
  }

  lemma {:induction false} Then(w: World, a: seq<Moment>, b: seq<Moment>)
    requires IsRun(TEXT, map[], w, a) && IsRun(TEXT, map[], End(w, a), b)
    ensures IsRun(TEXT, map[], w, a + b)
    decreases |a|
  {
    if a == [] {
      assert a + b == b;
    } else {
      EndOfRest(w, a);
      Then(a[0].after, a[1..], b);
      assert (a + b)[1..] == a[1..] + b;
    }
  }

  /** One step is a run. */
  lemma Single(w: World, m: Moment)
    requires Step(TEXT, map[], w, m.ev, m.kept, m.kept1, m.after)
    ensures IsRun(TEXT, map[], w, [m]) && End(w, [m]) == m.after
  {
    assert IsRun(TEXT, map[], m.after, []);
    assert [m][1..] == [];
  }

  predicate InsideRun(run: seq<Moment>) {
    true
  }

  /** The run leads from `w` to `v`. */
  ghost predicate Leads(w: World, run: seq<Moment>, v: World) {
    forall r: seq<Moment> {:trigger InsideRun(r)} :: r == run ==> IsRun(TEXT, map[], w, r) && End(w, r) == v
  }

  lemma LeadsIsRun(w: World, run: seq<Moment>, v: World)
    requires Leads(w, run, v)
    ensures IsRun(TEXT, map[], w, run) && End(w, run) == v
  {
    assert InsideRun(run);
  }

  lemma LeadsOne(w: World, m: Moment)
    requires Step(TEXT, map[], w, m.ev, m.kept, m.kept1, m.after)
    ensures Leads(w, [m], m.after)
  {
    Single(w, m);
  }

  lemma LeadsThen(w: World, a: seq<Moment>, v: World, b: seq<Moment>, u: World)
    requires Leads(w, a, v) && Leads(v, b, u)
    ensures Leads(w, a + b, u)
  {
    assert InsideRun(a) && InsideRun(b);
    EndConcat(w, a, b);
    Then(w, a, b);
  }

  lemma KeptWhole(ps: Proposals)
    requires |ps| <= MAX_KEPT_DECIDED
    ensures IsPruned(ps, ps)
  {
    NoMore(DecidedIn(ps), ps.Keys);
  }

  lemma {:induction false} NoMore(a: set<Id>, b: set<Id>)
    requires a <= b
    ensures |a| <= |b|
    decreases b
  {
    if a != {} {
      var x :| x in a;
      NoMore(a - {x}, b - {x});
    }
  }

  lemma Snoc(w: World, ws: seq<Write>, x: Write, kept: Proposals)
    ensures AppliedAll(w, ws + [x], kept) == Applied(AppliedAll(w, ws, kept), x, kept)
  {
    assert (ws + [x])[..|ws|] == ws;
  }

  lemma OneWrite(w: World, a: Write, kept: Proposals)
    ensures AppliedAll(w, [a], kept) == Applied(w, a, kept)
  {
    Snoc(w, [], a, kept);
    assert [] + [a] == [a];
  }

  lemma TwoWrites(w: World, a: Write, b: Write, kept: Proposals)
    ensures AppliedAll(w, [a, b], kept) == Applied(Applied(w, a, kept), b, kept)
  {
    OneWrite(w, a, kept);
    Snoc(w, [a], b, kept);
    assert [a] + [b] == [a, b];
  }

  lemma FourWrites(w: World, a: Write, b: Write, c: Write, d: Write, kept: Proposals)
    ensures AppliedAll(w, [a, b, c, d], kept)
         == Applied(Applied(Applied(Applied(w, a, kept), b, kept), c, kept), d, kept)
  {
    TwoWrites(w, a, b, kept);
    Snoc(w, [a, b], c, kept);
    Snoc(w, [a, b, c], d, kept);
    assert [a, b] + [c] == [a, b, c] && [a, b, c] + [d] == [a, b, c, d];
  }

  // ----- Single steps ------------------------------------------------------------------------------------

  function Verdict(id: Id, kind: Kind, approved: bool): (e: Entry) {
    Decided(kind, approved, Some(id), "m", "", None, None)
  }

  function SavedAs(w: World, ps: Proposals): (r: World) {
    w.(ps := ps, file := ps, saved := w.saved + {ps})
  }

  /** The first skill has just been proposed. */
  const PROPOSED: World := SavedAs(Start(map[]), Only(Proposed)).(issued := map[0 := FIRST])

  lemma ProposeFirst() returns (run: seq<Moment>)
    ensures Leads(Start(map[]), run, PROPOSED)
  {
    var w, c := Start(map[]), Propose(0, FIRST, [], 0, true);
    assert SkillConflicts(TEXT, w.ps, w.folder, map[], "first", None) == {};
    assert PendingIn(w.ps) == {};
    KeptWhole(Only(Proposed));
    assert EffectOf(TEXT, map[], w, c) == Effect([Save], Only(Proposed), true);
    OneWrite(w, Save, Only(Proposed));
    run := [Moment(Do(c), Only(Proposed), map[], PROPOSED)];
    LeadsOne(w, run[0]);
  }

  const ACCEPTED: Log := [Verdict(0, LearnSkill, true), Closed(0, true)]

  /** The first skill has been accepted as well, and written. */
  const WRITTEN: World := SavedAs(PROPOSED.(folder := map["first" := "first"], log := ACCEPTED), Only(Persisted))

  lemma AcceptWrites()
    ensures var e := EffectOf(TEXT, map[], PROPOSED, Accept(0, "m", {}, true, None, true, true));
            && e.writes == [Note(Verdict(0, LearnSkill, true)), Put("first", "first"), Note(Closed(0, true)), Save]
            && e.after == Only(Persisted) && e.saves
  {
    assert SkillConflicts(TEXT, PROPOSED.ps, PROPOSED.folder, map[], "first", Some(0)) == {};
    assert FreshConflicts(TEXT, map[], PROPOSED, 0) == Some({});
  }

  lemma AcceptFirst() returns (run: seq<Moment>)
    ensures Leads(PROPOSED, run, WRITTEN)
  {
    AcceptWrites();
    KeptWhole(Only(Persisted));
    FourWrites(PROPOSED, Note(Verdict(0, LearnSkill, true)), Put("first", "first"), Note(Closed(0, true)), Save, Only(Persisted));
    assert PROPOSED.log + [Verdict(0, LearnSkill, true)] + [Closed(0, true)] == ACCEPTED;
    assert PROPOSED.folder["first" := "first"] == map["first" := "first"];
    run := [Moment(Do(Accept(0, "m", {}, true, None, true, true)), Only(Persisted), map[], WRITTEN)];
    LeadsOne(PROPOSED, run[0]);
  }

  lemma RejectFirst(w: World) returns (run: seq<Moment>)
    requires exists st: ProposalState :: st.Awaiting() && w.ps == Only(st)
    ensures Leads(w, run, SavedAs(w.(log := w.log + [Verdict(0, LearnSkill, false)]), Only(Rejected("m", ""))))
  {
    var c, denied := Reject(0, "m", "", true, true), Only(Rejected("m", ""));
    var e := EffectOf(TEXT, map[], w, c);
    assert w.ps[0 := w.ps[0].(state := Rejected("m", ""))] == denied;
    assert e.writes == [Note(Verdict(0, LearnSkill, false)), Save] && e.after == denied;
    KeptWhole(denied);
    TwoWrites(w, Note(Verdict(0, LearnSkill, false)), Save, denied);
    run := [Moment(Do(c), denied, map[], SavedAs(w.(log := w.log + [Verdict(0, LearnSkill, false)]), denied))];
    LeadsOne(w, run[0]);
  }

  lemma PublishFirst(w: World) returns (run: seq<Moment>)
    requires w.ps == Only(Persisted) && w.folder == map["first" := "first"]
    ensures Leads(w, run, SavedAs(w.(log := w.log + [Verdict(0, Publish, true)]), Only(PublishPrepared)))
  {
    var c, done := PreparePublish(0, "m", true, true, false, true), Only(PublishPrepared);
    var e := EffectOf(TEXT, map[], w, c);
    assert e.writes == [Note(Verdict(0, Publish, true)), Save] && e.after == done;
    KeptWhole(done);
    TwoWrites(w, Note(Verdict(0, Publish, true)), Save, done);
    run := [Moment(Do(c), done, map[], SavedAs(w.(log := w.log + [Verdict(0, Publish, true)]), done))];
    LeadsOne(w, run[0]);
  }

  lemma EditFolder(w: World, folder: map<string, string>) returns (run: seq<Moment>)
    ensures Leads(w, run, w.(folder := folder))
  {
    run := [Moment(MemberEdits(folder), w.ps, map[], w.(folder := folder))];
    LeadsOne(w, run[0]);
  }

  /** Dies between calls and comes back on `snapshot`, which reconciling does not change. */
  lemma Restart(w: World, snapshot: Proposals) returns (run: seq<Moment>)
    requires snapshot in w.saved && Reconcile(TEXT, snapshot, w.log, w.folder) == snapshot
    ensures Leads(w, run, w.(ps := snapshot))
  {
    run := RestartOn(w, snapshot, map[], w.(ps := snapshot));
  }

  lemma RestartOn(w: World, snapshot: Proposals, kept: Proposals, v: World) returns (run: seq<Moment>)
    requires Reopened(TEXT, w, snapshot, kept, v)
    ensures Leads(w, run, v)
  {
    var c := Reject(0, "m", "", false, true);
    var e := EffectOf(TEXT, map[], w, c);
    assert e == Nothing(w) && e.writes[..0] == [];
    assert AppliedAll(w, [], w.ps).(issued := Issued(w, c, e)) == w;
    run := [Moment(Die(c, 0, snapshot), w.ps, kept, v)];
    LeadsOne(w, run[0]);
  }

  // ----- A lost accept is not repaired -------------------------------------------------------------------

  lemma OnlyMoves(log: Log, folder: map<string, string>, st: ProposalState, st1: ProposalState)
    requires MovedState(TEXT, Shown(FIRST, st), 0, log, folder) == st1
    ensures Reconcile(TEXT, Only(st), log, folder) == Only(st1)
  {
    var p: Proposal := Shown(FIRST, st);
    assert p.content.Skill? && p.setAside + {} == p.setAside;
    assert Reconciled(TEXT, p, 0, log, folder) == Shown(FIRST, st1);
    var r := Reconcile(TEXT, Only(st), log, folder);
    assert r.Keys == {0} && r[0] == Shown(FIRST, st1);
  }

  /** A reject does not move what is decided, nor a publish what is proposed. */
  lemma NotMoved(log: Log, folder: map<string, string>, st: ProposalState)
    requires log != [] && |log| <= MAX_RECONCILE_RECORDS
    requires (log[|log| - 1] == Verdict(0, LearnSkill, false) && !st.Awaiting())
          || (log[|log| - 1] == Verdict(0, Publish, true) && !st.Persisted?)
    ensures Reconcile(TEXT, Only(st), log, folder) == Only(st)
  {
    LatestIsLast(log, 0);
    assert MovedState(TEXT, Shown(FIRST, st), 0, log, folder) == st;
    OnlyMoves(log, folder, st, st);
  }

  /** Accepted and published, but shown as a mere proposal by the first file saved. */
  lemma PublishedSkillShownAsProposed() returns (run: seq<Moment>)
    ensures IsRun(TEXT, map[], Start(map[]), run)
    ensures var w := End(Start(map[]), run);
            && w.log == ACCEPTED + [Verdict(0, Publish, true)]
            && OnDisk(TEXT, FIRST, w.folder) && w.ps == Only(Proposed)
  {
    var w0 := Start(map[]);
    var a := ProposeFirst();
    var b := AcceptFirst();
    LeadsThen(w0, a, PROPOSED, b, WRITTEN);
    var c := PublishFirst(WRITTEN);
    var w3 := SavedAs(WRITTEN.(log := ACCEPTED + [Verdict(0, Publish, true)]), Only(PublishPrepared));
    LeadsThen(w0, a + b, WRITTEN, c, w3);
    NotMoved(w3.log, w3.folder, Proposed);
    var d := Restart(w3, Only(Proposed));
    LeadsThen(w0, a + b + c, w3, d, w3.(ps := Only(Proposed)));
    run := a + b + c + d;
    LeadsIsRun(w0, run, w3.(ps := Only(Proposed)));
  }

  lemma LatestIsLast(log: Log, id: Id)
    requires log != [] && About(log[|log| - 1], id)
    ensures Latest(log, 0, id) == Some(|log| - 1)
  {
  }

  // ----- A reject that does not stand --------------------------------------------------------------------

  /** The skill was rejected while a file on record shows it as accepted. */
  const DENIED: World :=
    SavedAs(SavedAs(WRITTEN.(folder := map[]), Only(PersistFailed(RESTARTED))).(
              log := ACCEPTED + [Verdict(0, LearnSkill, false)]), Only(Rejected("m", "")))

  /** The skill's file was gone when the first proposals file was loaded, so the accept was offered again. */
  lemma OfferedAgain() returns (run: seq<Moment>)
    ensures Leads(WRITTEN.(folder := map[]), run, SavedAs(WRITTEN.(folder := map[]), Only(PersistFailed(RESTARTED))))
  {
    var w, again := WRITTEN.(folder := map[]), Only(PersistFailed(RESTARTED));
    assert ACCEPTED[..1] == [ACCEPTED[0]];
    LatestIsLast(ACCEPTED[..1], 0);
    assert Latest(ACCEPTED, 0, 0) == Some(0);
    OnlyMoves(ACCEPTED, map[], Proposed, PersistFailed(RESTARTED));
    assert Reconcile(TEXT, Only(Proposed), ACCEPTED, map[]) == again;
    assert again[0] != Only(Proposed)[0];
    KeptWhole(again);
    run := RestartOn(w, Only(Proposed), again, SavedAs(w, again));
  }

  lemma RejectedMeanwhile() returns (run: seq<Moment>)
    ensures Leads(Start(map[]), run, DENIED)
  {
    var w0 := Start(map[]);
    var a := ProposeFirst();
    var b := AcceptFirst();
    LeadsThen(w0, a, PROPOSED, b, WRITTEN);
    var gone := WRITTEN.(folder := map[]);
    var c := EditFolder(WRITTEN, map[]);
    LeadsThen(w0, a + b, WRITTEN, c, gone);
    var again := SavedAs(gone, Only(PersistFailed(RESTARTED)));
    var d := OfferedAgain();
    LeadsThen(w0, a + b + c, gone, d, again);
    assert PersistFailed(RESTARTED).Awaiting();
    var e := RejectFirst(again);
    LeadsThen(w0, a + b + c + d, again, e, DENIED);
    run := a + b + c + d + e;
  }

  /** The file that shows the skill as accepted is loaded, the skill is published, and the file that shows it
      as proposed is loaded. */
  lemma PublishedAfterAll() returns (run: seq<Moment>, v: World)
    ensures Leads(DENIED, run, v) && v.log == DENIED.log + [Verdict(0, Publish, true)] && v.ps == Only(Proposed)
  {
    NotMoved(DENIED.log, DENIED.folder, Persisted);
    var a := Restart(DENIED, Only(Persisted));
    var w6 := DENIED.(ps := Only(Persisted));
    var w7 := w6.(folder := map["first" := "first"]);
    var b := EditFolder(w6, map["first" := "first"]);
    LeadsThen(DENIED, a, w6, b, w7);
    var c := PublishFirst(w7);
    var w8 := SavedAs(w7.(log := w7.log + [Verdict(0, Publish, true)]), Only(PublishPrepared));
    LeadsThen(DENIED, a + b, w7, c, w8);
    NotMoved(w8.log, w8.folder, Proposed);
    var d := Restart(w8, Only(Proposed));
    v := w8.(ps := Only(Proposed));
    LeadsThen(DENIED, a + b + c, w8, d, v);
    run := a + b + c + d;
  }

  /** With older files a reject of a skill need not stand. */
  lemma RejectedSkillComesBack() returns (before: seq<Moment>, later: seq<Moment>)
    ensures IsRun(TEXT, map[], Start(map[]), before + later)
    ensures var w, v := End(Start(map[]), before), End(Start(map[]), before + later);
            && Denied(w.log, 0) && Settled(w.log, 0) && w.ps == Only(Rejected("m", ""))
            && PageStart(v.log) == 0 && PublishedSince(w.log, v.log, 0)
            && v.ps == Only(Proposed)
  {
    before := RejectedMeanwhile();
    LeadsIsRun(Start(map[]), before, DENIED);
    var v;
    later, v := PublishedAfterAll();
    LeadsThen(Start(map[]), before, DENIED, later, v);
    LeadsIsRun(Start(map[]), before + later, v);
    LatestIsLast(DENIED.log, 0);
    assert About(v.log[3], 0) && v.log[3].kind == Publish;
  }

  // ----- A reject that is not read any more --------------------------------------------------------------

  function Pair(st0: ProposalState, st1: ProposalState): (ps: Proposals) {
    map[0 := Shown(FIRST, st0), 1 := Shown(SECOND, st1)]
  }

  /** The first skill is proposed and rejected. */
  const TURNED_DOWN: World := SavedAs(PROPOSED.(log := [Verdict(0, LearnSkill, false)]), Only(Rejected("m", "")))

  /** The second one is proposed. */
  const ANOTHER: World :=
    SavedAs(TURNED_DOWN, Pair(Rejected("m", ""), Proposed)).(issued := map[0 := FIRST, 1 := SECOND])

  lemma ProposeSecondWrites()
    ensures EffectOf(TEXT, map[], TURNED_DOWN, Propose(1, SECOND, [], 0, true))
         == Effect([Save], Pair(Rejected("m", ""), Proposed), true)
  {
    assert SkillConflicts(TEXT, TURNED_DOWN.ps, map[], map[], "second", None) == {};
    assert PendingIn(TURNED_DOWN.ps) == {};
    assert TURNED_DOWN.ps[1 := Shown(SECOND, Proposed)] == Pair(Rejected("m", ""), Proposed);
  }

  lemma ProposeSecond() returns (run: seq<Moment>)
    ensures Leads(TURNED_DOWN, run, ANOTHER)
  {
    var both := Pair(Rejected("m", ""), Proposed);
    ProposeSecondWrites();
    KeptWhole(both);
    OneWrite(TURNED_DOWN, Save, both);
    run := [Moment(Do(Propose(1, SECOND, [], 0, true)), both, map[], ANOTHER)];
    LeadsOne(TURNED_DOWN, run[0]);
  }

  const FAILING := Do(Accept(1, "m", {}, true, Some("disk full"), false, false))

  const FAILED: ProposalState := PersistFailed("disk full")

  /** An accept that cannot write the skill leaves it to be accepted again, and one more record. */
  lemma FailingAccept(w: World, st: ProposalState) returns (run: seq<Moment>)
    requires w.ps == Pair(Rejected("m", ""), st) && st.Awaiting() && w.folder == map[]
    ensures Leads(w, run, w.(ps := Pair(Rejected("m", ""), FAILED), log := w.log + [Verdict(1, LearnSkill, true)]))
  {
    var both := Pair(Rejected("m", ""), FAILED);
    assert SkillConflicts(TEXT, w.ps, w.folder, map[], "second", Some(1)) == {};
    assert FreshConflicts(TEXT, map[], w, 1) == Some({});
    var e := EffectOf(TEXT, map[], w, FAILING.call);
    assert e.writes == [Note(Verdict(1, LearnSkill, true))];
    assert e.after == both;
    KeptWhole(both);
    OneWrite(w, Note(Verdict(1, LearnSkill, true)), both);
    run := [Moment(FAILING, both, map[], w.(ps := both, log := w.log + [Verdict(1, LearnSkill, true)]))];
    LeadsOne(w, run[0]);
  }

  function Times(n: nat): (log: Log) {
    seq(n, i => Verdict(1, LearnSkill, true))
  }

  lemma {:induction false} FailingAccepts(w: World, n: nat) returns (run: seq<Moment>)
    requires n > 0 && w.ps.Keys == {0, 1} && w.folder == map[]
    requires w.ps == Pair(Rejected("m", ""), Proposed)
    ensures Leads(w, run, w.(ps := Pair(Rejected("m", ""), FAILED), log := w.log + Times(n)))
    decreases n
  {
    var done := Pair(Rejected("m", ""), FAILED);
    if n == 1 {
      run := FailingAccept(w, Proposed);
      assert [Verdict(1, LearnSkill, true)] == Times(1);
    } else {
      var a := FailingAccepts(w, n - 1);
      var w1 := w.(ps := done, log := w.log + Times(n - 1));
      var b := FailingAccept(w1, FAILED);
      assert Times(n - 1) + [Verdict(1, LearnSkill, true)] == Times(n);
      assert w.log + Times(n - 1) + [Verdict(1, LearnSkill, true)] == w.log + Times(n);
      LeadsThen(w, a, w1, b, w.(ps := done, log := w.log + Times(n)));
      run := a + b;
    }
  }

  /** The first skill is not among what reconciling reads of these records. */
  lemma NotRead(n: nat)
    requires n > MAX_RECONCILE_RECORDS
    ensures var log := [Verdict(0, LearnSkill, false)] + Times(n);
            Reconcile(TEXT, Only(Proposed), log, map[]) == Only(Proposed)
  {
    var log := [Verdict(0, LearnSkill, false)] + Times(n);
    assert forall i :: 0 < i < |log| ==> log[i] == Verdict(1, LearnSkill, true);
    assert Latest(log, PageStart(log), 0).None?;
    OnlyMoves(log, map[], Proposed, Proposed);
  }

  /** A reject that is no longer among the last 200000 records is not read, and an older file brings the
      proposal back. */
  lemma UnreadRejectComesBack() returns (before: seq<Moment>, later: seq<Moment>)
    ensures IsRun(TEXT, map[], Start(map[]), before + later)
    ensures var w, v := End(Start(map[]), before), End(Start(map[]), before + later);
            && Settled(w.log, 0) && w.ps == Only(Rejected("m", ""))
            && Latest(w.log, 0, 0).value < PageStart(v.log) && !PublishedSince(w.log, v.log, 0)
            && v.ps == Only(Proposed)
  {
    var w0, n := Start(map[]), MAX_RECONCILE_RECORDS + 1;
    var a := ProposeFirst();
    var b := RejectFirst(PROPOSED);
    assert PROPOSED.log + [Verdict(0, LearnSkill, false)] == TURNED_DOWN.log;
    LeadsThen(w0, a, PROPOSED, b, TURNED_DOWN);
    var c := ProposeSecond();
    var d := FailingAccepts(ANOTHER, n);
    var many := ANOTHER.(ps := Pair(Rejected("m", ""), FAILED), log := ANOTHER.log + Times(n));
    LeadsThen(TURNED_DOWN, c, ANOTHER, d, many);
    NotRead(n);
    var e := Restart(many, Only(Proposed));
    var v := many.(ps := Only(Proposed));
    LeadsThen(TURNED_DOWN, c + d, many, e, v);
    before, later := a + b, c + d + e;
    LeadsThen(w0, before, TURNED_DOWN, later, v);
    LeadsIsRun(w0, before, TURNED_DOWN);
    LeadsIsRun(w0, before + later, v);
    LatestIsLast(TURNED_DOWN.log, 0);
    assert forall i :: 0 < i < |v.log| ==> v.log[i] == Verdict(1, LearnSkill, true);
  }
}
