/** What each call of the learner comes to. */
module LearnMeaning {
  // Said of proposals, known memories and folders: when it goes through, which conflicts it names, and what it
  // leaves; and that a restart redoes from the log what a call did.

  import opened Wrappers
  import opened LearnModel
  import opened LearnCalls
  import opened LearnSteps

  // ----- Memories that meet ----------------------------------------------------------------------------------

  /** A memory about the key that has been accepted, or is being. */
  predicate AcceptedOn(t: Text, p: Proposal, key: string) {
    p.content.Memory? && t.norm(p.content.key) == t.norm(key) && (p.state == Persisted || p.state.PersistFailed?)
  }

  /** A memory about the key that nobody has decided about. */
  predicate ProposedOn(t: Text, p: Proposal, key: string) {
    p.content.Memory? && t.norm(p.content.key) == t.norm(key) && p.state == Proposed
  }

  /** Core, or a proposal that was not rejected, retracted or published, says just this already. */
  ghost predicate SaidAlready(
      t: Text, ps: Proposals, known: seq<Known>, except: Option<Id>, key: string, value: string)
  {
    || (exists i :: 0 <= i < |known| && t.norm(known[i].key) == t.norm(key) && t.collapse(known[i].value) == t.collapse(value))
    || (exists b :: b in ps && except != Some(b) && (AcceptedOn(t, ps[b], key) || ProposedOn(t, ps[b], key))
                    && t.collapse(ps[b].content.value) == t.collapse(value))
  }

  /** The conflicts of a memory about the key: a contradiction with each memory core holds about it and with each
      accepted one, and a pending one with each that nobody has decided about. */
  ghost predicate MemoryClash(t: Text, ps: Proposals, known: seq<Known>, except: Option<Id>, key: string, x: Conflict) {
    || (exists i :: 0 <= i < |known| && t.norm(known[i].key) == t.norm(key)
                    && x == Conflict(Contradiction, MemoryRef(known[i].id)))
    || (exists b :: b in ps && except != Some(b) && AcceptedOn(t, ps[b], key) && x == Conflict(Contradiction, ProposalRef(b)))
    || (exists b :: b in ps && except != Some(b) && ProposedOn(t, ps[b], key) && x == Conflict(PendingProposal, ProposalRef(b)))
  }

  lemma RivalIs(t: Text, ps: Proposals, key: string, except: Option<Id>, b: Id)
    ensures Rival(t, ps, key, except, b) <==>
              b in ps && except != Some(b) && (AcceptedOn(t, ps[b], key) || ProposedOn(t, ps[b], key))
    ensures Rival(t, ps, key, except, b) ==>
              MemoryConflict(ps, b) == Conflict(if ps[b].state == Proposed then PendingProposal else Contradiction, ProposalRef(b))
  {
  }

  lemma SaidAlreadyExactly(t: Text, ps: Proposals, key: string, value: string, known: seq<Known>, except: Option<Id>)
    ensures MemoryKnown(t, ps, key, value, known, except) <==> SaidAlready(t, ps, known, except, key, value)
  {
    forall b ensures Rival(t, ps, key, except, b) <==>
                       b in ps && except != Some(b) && (AcceptedOn(t, ps[b], key) || ProposedOn(t, ps[b], key)) {
      RivalIs(t, ps, key, except, b);
    }
  }

  lemma MemoryClashesExactly(t: Text, ps: Proposals, key: string, known: seq<Known>, except: Option<Id>, x: Conflict)
    ensures x in MemoryConflicts(t, ps, key, known, except) <==> MemoryClash(t, ps, known, except, key, x)
  {
    if x in RivalConflicts(t, ps, key, except) {
      var b :| b in ps && Rival(t, ps, key, except, b) && MemoryConflict(ps, b) == x;
      RivalIs(t, ps, key, except, b);
    }
    forall b | b in ps && except != Some(b) && (AcceptedOn(t, ps[b], key) || ProposedOn(t, ps[b], key))
      ensures MemoryConflict(ps, b) in RivalConflicts(t, ps, key, except)
      ensures MemoryConflict(ps, b) == Conflict(if ps[b].state == Proposed then PendingProposal else Contradiction, ProposalRef(b))
    {
      RivalIs(t, ps, key, except, b);
    }
  }

  lemma MemoryClashesAre(t: Text, ps: Proposals, key: string, known: seq<Known>, except: Option<Id>)
    ensures forall x :: x in MemoryConflicts(t, ps, key, known, except) <==> MemoryClash(t, ps, known, except, key, x)
  {
    forall x ensures x in MemoryConflicts(t, ps, key, known, except) <==> MemoryClash(t, ps, known, except, key, x) {
      MemoryClashesExactly(t, ps, key, known, except, x);
    }
  }

  // ----- Skills that meet ------------------------------------------------------------------------------------

  predicate Undecided(p: Proposal) {
    p.state == Proposed || p.state.PersistFailed?
  }

  predicate UndecidedSkill(t: Text, p: Proposal, name: string) {
    p.content.Skill? && t.nameOf(p.content.md) == Some(name) && Undecided(p)
  }

  /** The very skill is in the member's folder or on offer. */
  ghost predicate OfferedAlready(
      t: Text, ps: Proposals, folder: map<string, string>, except: Option<Id>, name: string, md: string)
  {
    || (name in folder && folder[name] == md)
    || (exists b :: b in ps && except != Some(b) && UndecidedSkill(t, ps[b], name) && ps[b].content.md == md)
  }

  /** The conflicts of a skill: one with the member's own skill of that name, which blocks it, one with a skill of
      that name from elsewhere, and one with each other proposal of that name still undecided. */
  ghost predicate SkillClash(
      t: Text, ps: Proposals, folder: map<string, string>, others: map<string, string>, except: Option<Id>, name: string,
      x: Conflict)
  {
    || (name in folder && x == Conflict(SameNameSkill, SkillRef("user", name)))
    || (name in others && x == Conflict(ShadowsSkill, SkillRef(others[name], name)))
    || (exists b :: b in ps && except != Some(b) && UndecidedSkill(t, ps[b], name) && x == Conflict(PendingProposal, ProposalRef(b)))
  }

  lemma OfferedAlreadyExactly(
      t: Text, ps: Proposals, folder: map<string, string>, name: string, md: string, except: Option<Id>)
    ensures SkillKnown(t, ps, folder, name, md, except) <==> OfferedAlready(t, ps, folder, except, name, md)
  {
    forall b ensures SkillRival(t, ps, name, except, b) <==> b in ps && except != Some(b) && UndecidedSkill(t, ps[b], name) {
    }
  }

  lemma SkillClashesExactly(
      t: Text, ps: Proposals, folder: map<string, string>, others: map<string, string>, name: string, except: Option<Id>,
      x: Conflict)
    ensures x in SkillConflicts(t, ps, folder, others, name, except) <==> SkillClash(t, ps, folder, others, except, name, x)
  {
    forall b ensures SkillRival(t, ps, name, except, b) <==> b in ps && except != Some(b) && UndecidedSkill(t, ps[b], name) {
    }
    if x in SkillRivals(t, ps, name, except) {
      var b :| b in ps && SkillRival(t, ps, name, except, b) && x == Conflict(PendingProposal, ProposalRef(b));
    }
  }

  lemma SkillClashesAre(
      t: Text, ps: Proposals, folder: map<string, string>, others: map<string, string>, name: string, except: Option<Id>)
    ensures forall x :: x in SkillConflicts(t, ps, folder, others, name, except) <==>
                        SkillClash(t, ps, folder, others, except, name, x)
  {
    forall x ensures x in SkillConflicts(t, ps, folder, others, name, except) <==>
                       SkillClash(t, ps, folder, others, except, name, x) {
      SkillClashesExactly(t, ps, folder, others, name, except, x);
    }
  }

  // ----- Proposing --------------------------------------------------------------------------------------------

  /** What the learner takes in: fewer than 256 undecided proposals so far, a valid skill or memory, and nothing
      that says the same. */
  ghost predicate TakesIn(t: Text, w: World, content: Content, known: seq<Known>) {
    && |set id | id in w.ps && Undecided(w.ps[id])| < 256
    && match content
       case Skill(md) => t.nameOf(md).Some? && !OfferedAlready(t, w.ps, w.folder, None, t.nameOf(md).value, md)
       case Memory(key, value) => t.memoryOk(key, value) && !SaidAlready(t, w.ps, known, None, t.trim(key), t.trim(value))
  }

  /** The proposal as it is first kept. */
  ghost predicate KeptAsProposed(
      t: Text, others: map<string, string>, w: World, content: Content, known: seq<Known>, now: nat, p: Proposal)
  {
    && p.created == now && p.state == Proposed && p.setAside == {}
    && match content
       case Skill(md) =>
         && p.content == content && t.nameOf(md).Some?
         && forall x :: x in p.conflicts <==> SkillClash(t, w.ps, w.folder, others, None, t.nameOf(md).value, x)
       case Memory(key, value) =>
         && p.content == Memory(t.trim(key), t.trim(value))
         && forall x :: x in p.conflicts <==> MemoryClash(t, w.ps, known, None, t.trim(key), x)
  }

  lemma AdmittedExactly(t: Text, others: map<string, string>, w: World, content: Content, known: seq<Known>, now: nat)
    ensures var admitted := Admitted(t, others, w, content, known);
            && (|PendingIn(w.ps)| < MAX_PENDING && admitted.Some? <==> TakesIn(t, w, content, known))
            && (admitted.Some? ==>
                  KeptAsProposed(t, others, w, content, known, now,
                                 Proposal(admitted.value.0, now, admitted.value.1, Proposed, {})))
  {
    assert PendingIn(w.ps) == set id | id in w.ps && Undecided(w.ps[id]);
    match content
    case Skill(md) =>
      if t.nameOf(md).Some? {
        var name := t.nameOf(md).value;
        OfferedAlreadyExactly(t, w.ps, w.folder, name, md, None);
        SkillClashesAre(t, w.ps, w.folder, others, name, None);
      }
    case Memory(key, value) =>
      var k, v := t.trim(key), t.trim(value);
      SaidAlreadyExactly(t, w.ps, k, v, known, None);
      MemoryClashesAre(t, w.ps, k, known, None);
  }

  /** A proposal is refused without a trace exactly when the learner does not take it in; else it is kept as it was
      made, trimmed, with its conflicts, once the file is saved, and the older proposals stay. */
  lemma ProposeExactly(t: Text, others: map<string, string>, w: World, c: Call)
    requires c.Propose?
    ensures var e := EffectOf(t, others, w, c);
            && (e.saves <==> TakesIn(t, w, c.content, c.memories))
            && (!e.saves || !c.saveOk ==> e.writes == [] && e.after == w.ps)
            && (e.saves && c.saveOk ==>
                  && e.writes == [Save] && c.id in e.after && e.after == w.ps[c.id := e.after[c.id]]
                  && KeptAsProposed(t, others, w, c.content, c.memories, c.now, e.after[c.id]))
  {
    AdmittedExactly(t, others, w, c.content, c.memories, c.now);
  }

  // ----- Accepting --------------------------------------------------------------------------------------------

  function NameIn(t: Text, md: string): (name: string) {
    if t.nameOf(md).Some? then t.nameOf(md).value else ""
  }

  /** Something says the same by now. */
  ghost predicate Superseded(t: Text, w: World, id: Id)
    requires id in w.ps
  {
    match w.ps[id].content
    case Skill(md) => OfferedAlready(t, w.ps, w.folder, Some(id), NameIn(t, md), md)
    case Memory(key, value) => SaidAlready(t, w.ps, [], Some(id), key, value)
  }

  /** A conflict of a proposal at its accept: one that is there now; or, of a memory, a contradiction found when it
      was proposed, unless what it was with is in another conflict now. */
  ghost predicate StillClashes(t: Text, others: map<string, string>, w: World, id: Id, x: Conflict)
    requires id in w.ps
  {
    match w.ps[id].content
    case Skill(md) => SkillClash(t, w.ps, w.folder, others, Some(id), NameIn(t, md), x)
    case Memory(key, _) =>
      || MemoryClash(t, w.ps, [], Some(id), key, x)
      || (x in w.ps[id].conflicts && x.kind == Contradiction
          && forall y :: MemoryClash(t, w.ps, [], Some(id), key, y) ==> y.existing != x.existing)
  }

  lemma FreshExactly(t: Text, others: map<string, string>, w: World, id: Id)
    requires id in w.ps
    ensures var found := FreshConflicts(t, others, w, id);
            && (found.None? <==> Superseded(t, w, id))
            && (found.Some? ==> forall x :: x in found.value <==> StillClashes(t, others, w, id, x))
  {
    match w.ps[id].content
    case Skill(md) =>
      OfferedAlreadyExactly(t, w.ps, w.folder, NameIn(t, md), md, Some(id));
      SkillClashesAre(t, w.ps, w.folder, others, NameIn(t, md), Some(id));
    case Memory(key, value) =>
      SaidAlreadyExactly(t, w.ps, key, value, [], Some(id));
      MemoryClashesAre(t, w.ps, key, [], Some(id));
  }

  /** The accept goes through: the proposal is undecided, nothing says the same, every conflict is acknowledged and
      none is with the member's own skill of that name, and the decision could be recorded. */
  ghost predicate GoesThrough(t: Text, others: map<string, string>, w: World, c: Call)
    requires c.Accept?
  {
    && c.id in w.ps && Undecided(w.ps[c.id]) && !Superseded(t, w, c.id) && c.recordOk
    && forall x :: StillClashes(t, others, w, c.id, x) ==> x.existing in c.acked && x.kind != SameNameSkill
  }

  /** Why the accepted content cannot take effect: a memory always can, a skill not if its folder is taken by now. */
  ghost predicate CannotPersist(t: Text, w: World, content: Content, failure: Option<string>) {
    content.Skill? && (t.nameOf(content.md).None? || t.nameOf(content.md).value in w.folder || failure.Some?)
  }

  /** An accept that does not go through writes nothing and decides nothing. One that does records the member's
      decision first; then, unless it cannot persist, a skill is written under its name, and the proposal is
      persisted, with the conflicts it has now. */
  lemma AcceptExactly(t: Text, others: map<string, string>, w: World, c: Call)
    requires c.Accept?
    ensures var e := EffectOf(t, others, w, c);
            && (GoesThrough(t, others, w, c) <==> e.writes != [])
            && (e.writes == [] ==>
                  e.after.Keys == w.ps.Keys
                  && forall id :: id in w.ps ==> e.after[id] == w.ps[id].(conflicts := e.after[id].conflicts))
            && (e.writes != [] ==>
                  && c.id in w.ps && c.id in e.after && e.after == w.ps[c.id := e.after[c.id]]
                  && Accepts(t, others, w, c, e.after[c.id], e.writes))
  {
    if c.id in w.ps {
      FreshExactly(t, others, w, c.id);
    }
  }

  ghost predicate Accepts(
      t: Text, others: map<string, string>, w: World, c: Call, p: Proposal, writes: seq<Write>)
    requires c.Accept? && c.id in w.ps
  {
    var content := w.ps[c.id].content;
    && p.content == content && p.created == w.ps[c.id].created && p.setAside == w.ps[c.id].setAside
    && (forall x :: x in p.conflicts <==> StillClashes(t, others, w, c.id, x))
    && (if CannotPersist(t, w, content, c.failure) then p.state.PersistFailed? else p.state == Persisted)
    && writes != []
    && writes[0] == Note(Decided(if content.Skill? then LearnSkill else LearnMemory, true, Some(c.id), c.member, "", None, None))
    && forall name, md :: Put(name, md) in writes <==>
         content == Skill(md) && t.nameOf(md) == Some(name) && !CannotPersist(t, w, content, c.failure)
  }

  // ----- Rejecting, resolving, publishing -----------------------------------------------------------------------

  /** The call changes this one proposal, to `p`, and records this decision before anything else. */
  ghost predicate Decides(w: World, e: Effect, id: Id, p: Proposal, decision: Entry) {
    e.after == w.ps[id := p] && e.saves && e.writes != [] && e.writes[0] == Note(decision)
    && forall i :: 0 < i < |e.writes| ==> e.writes[i] == Save || e.writes[i] == Note(Closed(|w.log|, true))
  }

  /** Only an undecided proposal can be rejected, with the member and the reason. */
  lemma RejectExactly(w: World, c: Call)
    requires c.Reject?
    ensures var e := RejectEffect(w, c);
            if c.id in w.ps && Undecided(w.ps[c.id]) && c.recordOk then
              Decides(w, e, c.id, w.ps[c.id].(state := Rejected(c.member, c.reason)),
                      Decided(if w.ps[c.id].content.Skill? then LearnSkill else LearnMemory, false, Some(c.id), c.member, c.reason, None, None))
            else e == Effect([], w.ps, false)
  {
  }

  /** The two are accepted memories about one key that say different things. */
  predicate AtOdds(t: Text, ps: Proposals, a: Id, b: Id) {
    && a != b && a in ps && b in ps && ps[a].content.Memory? && ps[b].content.Memory?
    && ps[a].state == Persisted && ps[b].state == Persisted
    && t.norm(ps[a].content.key) == t.norm(ps[b].content.key) && t.collapse(ps[a].content.value) != t.collapse(ps[b].content.value)
  }

  /** Of two memories at odds the member keeps one; the other is retracted in its favour. */
  lemma ResolveTwoExactly(t: Text, w: World, c: Call)
    requires c.ResolveTwo?
    ensures var e := ResolveEffect(t, w, c);
            if AtOdds(t, w.ps, c.keep, c.retract) && c.recordOk then
              Decides(w, e, c.retract, w.ps[c.retract].(state := Retracted(c.member, ProposalRef(c.keep))),
                      Decided(Resolve, true, Some(c.retract), c.member, "", Some(ProposalRef(c.keep)), None))
            else e == Effect([], w.ps, false)
  {
  }

  /** The member acknowledged that this persisted memory contradicts the one core holds, and has not chosen yet. */
  predicate AtOddsWithKnown(ps: Proposals, id: Id, known: string) {
    && 1 <= |known| <= 128 && (forall i :: 0 <= i < |known| ==> '!' <= known[i] <= '~')
    && id in ps && ps[id].content.Memory? && ps[id].state == Persisted
    && Conflict(Contradiction, MemoryRef(known)) in ps[id].conflicts && known !in ps[id].setAside
  }

  lemma KeepLearnedExactly(w: World, c: Call)
    requires c.KeepLearned?
    ensures var e := KeepLearnedEffect(w, c);
            if AtOddsWithKnown(w.ps, c.id, c.known) && c.recordOk then
              Decides(w, e, c.id, w.ps[c.id].(setAside := w.ps[c.id].setAside + {c.known}),
                      Decided(Resolve, true, None, c.member, "", Some(ProposalRef(c.id)), Some(c.known)))
            else e == Effect([], w.ps, false)
  {
  }

  lemma KeepKnownExactly(w: World, c: Call)
    requires c.KeepKnown?
    ensures var e := KeepKnownEffect(w, c);
            if AtOddsWithKnown(w.ps, c.id, c.known) && c.recordOk then
              Decides(w, e, c.id, w.ps[c.id].(state := Retracted(c.member, MemoryRef(c.known))),
                      Decided(Resolve, true, Some(c.id), c.member, "", Some(MemoryRef(c.known)), None))
            else e == Effect([], w.ps, false)
  {
  }

  /** A skill is prepared for publishing only while its file holds exactly what was accepted. */
  lemma PublishExactly(t: Text, w: World, c: Call)
    requires c.PreparePublish?
    ensures var e := PublishEffect(t, w, c);
            if && c.id in w.ps && w.ps[c.id].content.Skill?
               && (w.ps[c.id].state == Persisted || w.ps[c.id].state == PublishPrepared) && c.paramsOk && c.recordOk
               && exists name :: t.nameOf(w.ps[c.id].content.md) == Some(name) && name in w.folder
                                 && w.folder[name] == w.ps[c.id].content.md
            then
              Decides(w, e, c.id, w.ps[c.id].(state := PublishPrepared),
                      Decided(Publish, true, Some(c.id), c.member, "", None, None))
            else e == Effect([], w.ps, false)
  {
  }

  // ----- What the log says again after a restart --------------------------------------------------------------------

  /** Whether a decision is completed is what the last outcome recorded for it says. */
  lemma {:induction false} CompletedExactly(log: Log, from: nat, decision: nat)
    ensures CompletedIn(log, from, decision) <==>
            exists i :: from <= i < |log| && log[i] == Closed(decision, true)
                        && forall j :: i < j < |log| ==> log[j] != Closed(decision, false)
    decreases |log|
  {
    if |log| > from && !(log[|log| - 1].Closed? && log[|log| - 1].decision == decision) {
      var init := log[..|log| - 1];
      CompletedExactly(init, from, decision);
      assert forall i :: 0 <= i < |init| ==> init[i] == log[i];
      if CompletedIn(init, from, decision) {
        var i :| from <= i < |init| && init[i] == Closed(decision, true)
                 && forall j :: i < j < |init| ==> init[j] != Closed(decision, false);
        assert log[i] == Closed(decision, true);
      }
    } else if |log| > from && log[|log| - 1].completed {
      assert log[|log| - 1] == Closed(decision, true);
    }
  }

  /** What was set aside for a memory is what the records read say the member chose it over. */
  lemma {:induction false} SetAsidesExactly(log: Log, from: nat, id: Id, known: string)
    ensures known in SetAsides(log, from, id) <==>
            exists i :: from <= i < |log| && log[i].Decided? && log[i].kind == Resolve && log[i].approved
                        && log[i].kept == Some(ProposalRef(id)) && log[i].aside == Some(known) && ValidKnown(known)
    decreases |log|
  {
    if |log| > from {
      var init := log[..|log| - 1];
      SetAsidesExactly(init, from, id, known);
      assert forall i :: 0 <= i < |init| ==> init[i] == log[i];
    }
  }

  /** The writes of a call add the decision and at most its outcome. */
  lemma LogGrowsBy(w: World, e: Effect, kept: Proposals, n: nat)
    requires 0 < n <= |e.writes| && e.writes[0].Note?
    ensures var log := AppliedAll(w, e.writes[..n], kept).log;
            w.log + [e.writes[0].entry] <= log && |log| <= |w.log| + n
    decreases n
  {
    OneMoreWrite(w, e, kept, n);
    if n > 1 {
      LogGrowsBy(w, e, kept, n - 1);
    }
  }

  /** After any of a call's writes the decision it recorded is the latest about its proposal, and is read. */
  lemma DecisionIsLatest(w: World, e: Effect, kept: Proposals, n: nat, id: Id)
    requires DecisionFirst(e) && 0 < n <= |e.writes| <= 4 && e.writes[0].Note? && About(e.writes[0].entry, id)
    ensures var log := AppliedAll(w, e.writes[..n], kept).log;
            && Latest(log, PageStart(log), id) == Some(|w.log|) && |w.log| < |log| && log[|w.log|] == e.writes[0].entry
  {
    SettledBy(w, e, kept, n, id);
    LatestAfter(w.log, e.writes[0].entry, id);
    LogGrowsBy(w, e, kept, n);
    var log := AppliedAll(w, e.writes[..n], kept).log;
    LatestOnPage(log, PageStart(log), id);
  }

  lemma DecidesFirst(w: World, e: Effect, id: Id, p: Proposal, decision: Entry)
    requires Decides(w, e, id, p, decision) && decision.Decided?
    ensures DecisionFirst(e)
  {
    forall i | 0 < i < |e.writes| && e.writes[i].Note? ensures e.writes[i].entry.Closed? {
      assert e.writes[i] == Save || e.writes[i] == Note(Closed(|w.log|, true));
    }
  }

  /** The next state by a decision that was recorded in this call. */
  lemma RestartReads(
      t: Text, w: World, e: Effect, id: Id, p: Proposal, decision: Entry, kept: Proposals, n: nat)
    requires Decides(w, e, id, p, decision) && decision.Decided? && About(decision, id) && 0 < n <= |e.writes| <= 4
    requires id in w.ps && decision.kind != LearnSkill
    ensures var w1 := AppliedAll(w, e.writes[..n], kept);
            var next := NextState(t, w.ps[id], decision, false, w1.folder);
            Reconciled(t, w.ps[id], id, w1.log, w1.folder).state == if next.Some? then next.value else w.ps[id].state
  {
    DecidesFirst(w, e, id, p, decision);
    DecisionIsLatest(w, e, kept, n, id);
  }

  /** A crash at any point after the decision was recorded, and a restart on the file from before the call: a
      retraction and a publish stand just as the call would have left them. */
  lemma RestartRedoesResolve(t: Text, w: World, c: Call, kept: Proposals, n: nat)
    requires c.ResolveTwo? && 0 < n <= |ResolveEffect(t, w, c).writes|
    ensures var w1 := AppliedAll(w, ResolveEffect(t, w, c).writes[..n], kept);
            c.retract in w.ps && Reconciled(t, w.ps[c.retract], c.retract, w1.log, w1.folder).state
                              == Retracted(c.member, ProposalRef(c.keep))
  {
    ResolveTwoExactly(t, w, c);
    var decision := Decided(Resolve, true, Some(c.retract), c.member, "", Some(ProposalRef(c.keep)), None);
    RestartReads(t, w, ResolveEffect(t, w, c), c.retract, w.ps[c.retract].(state := Retracted(c.member, ProposalRef(c.keep))),
                 decision, kept, n);
  }

  lemma RestartRedoesKeepKnown(t: Text, w: World, c: Call, kept: Proposals, n: nat)
    requires c.KeepKnown? && 0 < n <= |KeepKnownEffect(w, c).writes|
    ensures var w1 := AppliedAll(w, KeepKnownEffect(w, c).writes[..n], kept);
            c.id in w.ps && Reconciled(t, w.ps[c.id], c.id, w1.log, w1.folder).state == Retracted(c.member, MemoryRef(c.known))
  {
    KeepKnownExactly(w, c);
    var decision := Decided(Resolve, true, Some(c.id), c.member, "", Some(MemoryRef(c.known)), None);
    RestartReads(t, w, KeepKnownEffect(w, c), c.id, w.ps[c.id].(state := Retracted(c.member, MemoryRef(c.known))),
                 decision, kept, n);
  }

  lemma RestartRedoesPublish(t: Text, w: World, c: Call, kept: Proposals, n: nat)
    requires c.PreparePublish? && 0 < n <= |PublishEffect(t, w, c).writes|
    ensures var w1 := AppliedAll(w, PublishEffect(t, w, c).writes[..n], kept);
            c.id in w.ps && Reconciled(t, w.ps[c.id], c.id, w1.log, w1.folder).state == PublishPrepared
  {
    PublishExactly(t, w, c);
    var decision := Decided(Publish, true, Some(c.id), c.member, "", None, None);
    RestartReads(t, w, PublishEffect(t, w, c), c.id, w.ps[c.id].(state := PublishPrepared), decision, kept, n);
  }

  /** So does a reject. */
  lemma RestartRedoesReject(t: Text, w: World, c: Call, kept: Proposals, n: nat)
    requires c.Reject? && 0 < n <= |RejectEffect(w, c).writes|
    ensures var w1 := AppliedAll(w, RejectEffect(w, c).writes[..n], kept);
            c.id in w.ps && Reconciled(t, w.ps[c.id], c.id, w1.log, w1.folder).state == Rejected(c.member, c.reason)
  {
    RejectExactly(w, c);
    var p := w.ps[c.id];
    var decision := Decided(LearnKind(p.content), false, Some(c.id), c.member, c.reason, None, None);
    DecidesFirst(w, RejectEffect(w, c), c.id, p.(state := Rejected(c.member, c.reason)), decision);
    DecisionIsLatest(w, RejectEffect(w, c), kept, n, c.id);
  }

  /** And the choice of a learned memory over a known one. */
  lemma RestartRedoesKeepLearned(t: Text, w: World, c: Call, kept: Proposals, n: nat)
    requires c.KeepLearned? && 0 < n <= |KeepLearnedEffect(w, c).writes|
    ensures var w1 := AppliedAll(w, KeepLearnedEffect(w, c).writes[..n], kept);
            c.id in w.ps && c.known in Reconciled(t, w.ps[c.id], c.id, w1.log, w1.folder).setAside
  {
    KeepLearnedExactly(w, c);
    var e := KeepLearnedEffect(w, c);
    LogGrowsBy(w, e, kept, n);
    var log := AppliedAll(w, e.writes[..n], kept).log;
    assert log[|w.log|] == e.writes[0].entry;
    SetAsidesExactly(log, PageStart(log), c.id, c.known);
  }

  /** An accept is not redone blindly. A memory is offered for accepting again, since core may not have it; a skill
      that was only proposed on file is persisted exactly when the last outcome recorded for the accept says it was
      completed and its file holds what was proposed, and is offered again otherwise. */
  lemma RestartAfterAccept(t: Text, others: map<string, string>, w: World, c: Call, kept: Proposals, n: nat)
    requires c.Accept? && 0 < n <= |AcceptEffect(t, others, w, c).writes|
    ensures var w1 := AppliedAll(w, AcceptEffect(t, others, w, c).writes[..n], kept);
            c.id in w.ps &&
            var p, st := w.ps[c.id], Reconciled(t, w.ps[c.id], c.id, w1.log, w1.folder).state;
            match p.content
            case Memory(_, _) => st.PersistFailed?
            case Skill(md) =>
              p.state == Proposed ==>
                && (st == Persisted || st.PersistFailed?)
                && (st == Persisted <==>
                      && (exists i :: PageStart(w1.log) <= i < |w1.log| && w1.log[i] == Closed(|w.log|, true)
                                      && forall j :: i < j < |w1.log| ==> w1.log[j] != Closed(|w.log|, false))
                      && exists name :: t.nameOf(md) == Some(name) && name in w1.folder && w1.folder[name] == md)
  {
    var e := AcceptEffect(t, others, w, c);
    AcceptDecidesFirst(t, others, w, c);
    AcceptWritesDecision(t, others, w, c);
    DecisionIsLatest(w, e, kept, n, c.id);
    var log := AppliedAll(w, e.writes[..n], kept).log;
    CompletedExactly(log, PageStart(log), |w.log|);
  }

  lemma AcceptWritesDecision(t: Text, others: map<string, string>, w: World, c: Call)
    requires c.Accept? && AcceptEffect(t, others, w, c).writes != []
    ensures c.id in w.ps && Undecided(w.ps[c.id]) && |AcceptEffect(t, others, w, c).writes| <= 4
    ensures AcceptEffect(t, others, w, c).writes[0]
         == Note(Decided(LearnKind(w.ps[c.id].content), true, Some(c.id), c.member, "", None, None))
  {
  }

  // ----- What saving drops --------------------------------------------------------------------------------------------

  /** Saving keeps every undecided proposal as it is, and of the decided ones the 512 made last; of two made at one
      moment the one with the larger id. */
  lemma SavingKeepsTheNewest(ps: Proposals, kept: Proposals)
    requires IsPruned(ps, kept)
    ensures forall id :: id in kept ==> id in ps && kept[id] == ps[id]
    ensures forall id :: id in ps && Undecided(ps[id]) ==> id in kept
    ensures forall a, b :: a in ps && a !in kept && b in kept && !Undecided(kept[b]) ==>
              ps[a].created < ps[b].created || (ps[a].created == ps[b].created && a < b)
    ensures var before, after := set id | id in ps && !Undecided(ps[id]), set id | id in kept && !Undecided(kept[id]);
            |after| == if |before| <= 512 then |before| else 512
  {
    assert DecidedIn(ps) == set id | id in ps && !Undecided(ps[id]);
    assert DecidedIn(kept) == set id | id in kept && !Undecided(kept[id]);
    forall a, b | a in ps && a !in kept && b in kept && !Undecided(kept[b])
      ensures ps[a].created < ps[b].created || (ps[a].created == ps[b].created && a < b)
    {
      assert a in DecidedIn(ps) && b in DecidedIn(kept);
    }
  }
}
