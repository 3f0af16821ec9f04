/** The learner (`agent-learn/src/learner.rs`): it holds the proposals and applies the member's decisions,
    each written to the log before its effect. */
module Learner {
  import opened Wrappers
  import opened LearnModel
  import opened LearnCalls
  import opened LearnRuns
  import opened LearnSteps
  import opened LearnMeaning

  datatype LearnError =
    | UnknownProposal
    | WrongState
    | InvalidContent
    | AlreadyKnown(existing: Ref)
    | TooManyPending
    | Blocked(conflicts: set<Conflict>)
    | Unacknowledged(conflicts: set<Conflict>)
    | NotRecorded
    | NotPersisted(why: string)
    | NotASkill
    | ContentChanged
    | InvalidPublish
    | NotSaved
    | NotAContradiction

  /** A contradiction is `Both`: both claims are kept, and neither is relied on. */
  datatype Belnap = True | Both

  /** An accepted memory, for core to store. */
  datatype MemoryRecord = MemoryRecord(
    proposal: Id, key: string, value: string, belnap: Belnap, contradicts: set<Ref>, acceptedBy: string,
    decisionSeq: nat)

  datatype Kept = KeptSkill(name: string) | KeptMemory(record: MemoryRecord)

  function Contradicted(conflicts: set<Conflict>): (rs: set<Ref>) {
    set x | x in conflicts && x.kind == Contradiction :: x.existing
  }

  /** An accepted memory on the same key says something else. */
  predicate Disagrees(t: Text, w: World, id: Id, b: Id)
    requires id in w.ps && w.ps[id].content.Memory?
  {
    && b in w.ps && b != id && w.ps[b].content.Memory? && Accepted(w.ps[b])
    && SameKey(t, w.ps[b].content.key, w.ps[id].content.key)
    && !SameValue(t, w.ps[b].content.value, w.ps[id].content.value)
  }

  /** A contradiction found when proposing, with no proposal that still counts. */
  ghost predicate FoundEarlier(t: Text, w: World, id: Id, x: Conflict)
    requires id in w.ps && w.ps[id].content.Memory?
  {
    && x in w.ps[id].conflicts && x.kind == Contradiction
    && forall b :: Rival(t, w.ps, w.ps[id].content.key, Some(id), b) ==> x.existing != ProposalRef(b)
  }

  lemma ContradictionIsFresh(t: Text, others: map<string, string>, w: World, id: Id, b: Id)
    requires id in w.ps && w.ps[id].content.Memory? && FreshConflicts(t, others, w, id).Some? && Disagrees(t, w, id, b)
    ensures ProposalRef(b) in Contradicted(FreshConflicts(t, others, w, id).value)
  {
    assert Rival(t, w.ps, w.ps[id].content.key, Some(id), b);
    assert MemoryConflict(w.ps, b) in FreshConflicts(t, others, w, id).value;
  }

  lemma ContradictionIsStored(t: Text, others: map<string, string>, w: World, id: Id, x: Conflict)
    requires id in w.ps && w.ps[id].content.Memory? && FreshConflicts(t, others, w, id).Some? && FoundEarlier(t, w, id, x)
    ensures x.existing in Contradicted(FreshConflicts(t, others, w, id).value)
  {
    forall y | y in MemoryConflicts(t, w.ps, w.ps[id].content.key, [], Some(id)) ensures y.existing != x.existing {
      var b :| b in w.ps && Rival(t, w.ps, w.ps[id].content.key, Some(id), b) && MemoryConflict(w.ps, b) == y;
    }
    assert x in FreshConflicts(t, others, w, id).value;
  }

  lemma ContradictionIsEither(t: Text, others: map<string, string>, w: World, id: Id, x: Conflict)
    requires id in w.ps && w.ps[id].content.Memory? && FreshConflicts(t, others, w, id).Some?
    requires x in FreshConflicts(t, others, w, id).value && x.kind == Contradiction
    ensures FoundEarlier(t, w, id, x) || exists b :: Disagrees(t, w, id, b)
  {
    var current := MemoryConflicts(t, w.ps, w.ps[id].content.key, [], Some(id));
    if x in current {
      var b :| b in w.ps && Rival(t, w.ps, w.ps[id].content.key, Some(id), b) && MemoryConflict(w.ps, b) == x;
      assert Disagrees(t, w, id, b);
    } else {
      forall b | Rival(t, w.ps, w.ps[id].content.key, Some(id), b) ensures x.existing != ProposalRef(b) {
        assert MemoryConflict(w.ps, b) in current;
      }
    }
  }

  /** A record is `Both` exactly when a memory accepted earlier disagrees about the key, or a contradiction
      found when proposing is still among the conflicts. */
  lemma BothExactlyWhenContradicting(t: Text, others: map<string, string>, w: World, id: Id)
    requires id in w.ps && w.ps[id].content.Memory? && FreshConflicts(t, others, w, id).Some?
    ensures Contradicted(FreshConflicts(t, others, w, id).value) != {} <==>
            (exists b :: Disagrees(t, w, id, b)) || (exists x :: FoundEarlier(t, w, id, x))
  {
    var all := FreshConflicts(t, others, w, id).value;
    if r :| r in Contradicted(all) {
      var x :| x in all && x.kind == Contradiction && x.existing == r;
      ContradictionIsEither(t, others, w, id, x);
    }
    if b :| Disagrees(t, w, id, b) {
      ContradictionIsFresh(t, others, w, id, b);
    }
    if x :| FoundEarlier(t, w, id, x) {
      ContradictionIsStored(t, others, w, id, x);
    }
  }

  function StateAfter(problem: Option<string>): (st: ProposalState) {
    if problem.None? then Persisted else PersistFailed(problem.value)
  }

  /** What core or the skills folder gets. */
  function KeptAs(t: Text, id: Id, p: Proposal, member: string, decisionSeq: nat): (k: Kept) {
    match p.content
    case Skill(md) => KeptSkill(if t.nameOf(md).Some? then t.nameOf(md).value else "")
    case Memory(key, value) =>
      var contradicts := Contradicted(p.conflicts);
      KeptMemory(MemoryRecord(id, key, value, if contradicts == {} then True else Both, contradicts, member, decisionSeq))
  }

  /** What an accepted proposal hands over, said outright: a skill its name; a memory the key and the value that
      were proposed, who accepted it and under which decision, and every contradiction found now, each of which
      was acknowledged. */
  ghost predicate Handed(
      t: Text, others: map<string, string>, w: World, id: Id, acked: set<Ref>, member: string, seqNo: nat, kept: Kept)
  {
    && id in w.ps && FreshConflicts(t, others, w, id).Some?
    && var conflicts := FreshConflicts(t, others, w, id).value;
    && (forall x :: x in conflicts ==> x.existing in acked && x.kind != SameNameSkill)
    && match w.ps[id].content
       case Skill(md) => kept.KeptSkill? && t.nameOf(md) == Some(kept.name)
       case Memory(key, value) =>
         && kept.KeptMemory?
         && kept.record.proposal == id && kept.record.key == key && kept.record.value == value
         && kept.record.acceptedBy == member && kept.record.decisionSeq == seqNo
         && (forall x :: x in kept.record.contradicts <==> Conflict(Contradiction, x) in conflicts)
         && (kept.record.belnap == Both <==> kept.record.contradicts != {})
  }

  lemma KeptIsHanded(
      t: Text, others: map<string, string>, w: World, id: Id, acked: set<Ref>, member: string, seqNo: nat,
      failure: Option<string>)
    requires id in w.ps && FreshConflicts(t, others, w, id).Some?
    requires Acceptable(FreshConflicts(t, others, w, id).value, acked)
    requires PersistFailure(t, w, w.ps[id].content, failure).None?
    ensures Handed(t, others, w, id, acked, member, seqNo,
                   KeptAs(t, id, w.ps[id].(conflicts := FreshConflicts(t, others, w, id).value), member, seqNo))
  {
    var conflicts := FreshConflicts(t, others, w, id).value;
    forall x ensures x in Contradicted(conflicts) <==> Conflict(Contradiction, x) in conflicts {
      if x in Contradicted(conflicts) {
        var y :| y in conflicts && y.kind == Contradiction && y.existing == x;
        assert y == Conflict(Contradiction, x);
      }
    }
  }

  lemma {:induction false} AppliedConcat(w: World, a: seq<Write>, b: seq<Write>, kept: Proposals)
    ensures AppliedAll(w, a + b, kept) == AppliedAll(AppliedAll(w, a, kept), b, kept)
    decreases |b|
  {
    if b == [] {
      assert a + b == a;
    } else {
      assert (a + b)[..|a + b| - 1] == a + b[..|b| - 1];
      AppliedConcat(w, a, b[..|b| - 1], kept);
    }
  }

  lemma AppliedOne(w: World, write: Write, kept: Proposals)
    ensures AppliedAll(w, [write], kept) == Applied(w, write, kept)
  {
    assert [write][..0] == [];
  }

  class Learner {
    const t: Text
    const others: map<string, string>
    var proposals: Proposals
    var log: Log
    var folder: map<string, string>
    var file: Proposals
    ghost var saved: set<Proposals>
    ghost var issued: map<Id, Content>

    ghost function View(): (w: World)
      reads this
    {
      World(proposals, log, folder, file, saved, issued)
    }

    // ----- Opening --------------------------------------------------------------------------------------------

    /** Restores the proposals from a file and moves them forward to what the log says. */
    constructor Open(t: Text, others: map<string, string>, w: World, snapshot: Proposals)
      requires snapshot in w.saved
      ensures this.t == t && this.others == others
      ensures Reopened(t, w, snapshot, proposals, View())
    {
      this.t, this.others := t, others;
      proposals, log, folder, file := snapshot, w.log, w.folder, w.file;
      saved, issued := w.saved, w.issued;
      new;
      var moved := ReconcileWithLog();
      if moved > 0 {
        Save(true);
      }
    }

    /** Reads the last page of the log: the outcome of each decision, the latest decision about each proposal,
        and the known memories set aside. */
    method ReadPage() returns (outcomes: map<nat, bool>, latest: map<Id, nat>, asides: seq<(Id, string)>)
      ensures PageRead(log, |log|, outcomes, latest, asides)
    {
      outcomes, latest, asides := map[], map[], [];
      var from := PageStart(log);
      assert log[..from][..] == log[..from];
      for k := from to |log|
        invariant PageRead(log, k, outcomes, latest, asides)
      {
        PageGrows(log, k, outcomes, latest, asides);
        match log[k]
        case Closed(decision, completed) => outcomes := outcomes[decision := completed];
        case Decided(_, _, about, _, _, kept, aside) =>
          if SetsAside(log[k]) {
            if kept.value.ProposalRef? && ValidKnown(aside.value) {
              asides := asides + [(kept.value.id, aside.value)];
            }
          } else if about.Some? {
            latest := latest[about.value := k];
          }
      }
    }

    /** Gives each proposal the state its latest decision says. */
    method MoveStates(outcomes: map<nat, bool>, latest: map<Id, nat>, ghost asides: seq<(Id, string)>)
      returns (moved: nat)
      requires PageRead(log, |log|, outcomes, latest, asides)
      modifies `proposals
      ensures proposals.Keys == old(proposals).Keys && (moved == 0 <==> proposals == old(proposals))
      ensures forall id :: id in proposals ==>
                proposals[id] == old(proposals)[id].(state := MovedState(t, old(proposals)[id], id, log, folder))
    {
      moved := 0;
      ghost var before := proposals;
      var todo := proposals.Keys;
      while todo != {}
        invariant todo <= before.Keys && proposals.Keys == before.Keys
        invariant forall id :: id in todo ==> proposals[id] == before[id]
        invariant forall id :: id in before && id !in todo ==>
                    proposals[id] == before[id].(state := MovedState(t, before[id], id, log, folder))
        invariant moved == 0 <==> proposals == before
        decreases |todo|
      {
        var id :| id in todo;
        todo := todo - {id};
        var next := NextFor(id, outcomes, latest, asides);
        if next.Some? {
          proposals := proposals[id := proposals[id].(state := next.value)];
          moved := moved + 1;
          assert proposals[id] != before[id];
        }
      }
    }

    /** The state the page moves a proposal to, if it moves it. */
    method NextFor(id: Id, outcomes: map<nat, bool>, latest: map<Id, nat>, ghost asides: seq<(Id, string)>)
      returns (next: Option<ProposalState>)
      requires PageRead(log, |log|, outcomes, latest, asides) && id in proposals
      ensures var st := MovedState(t, proposals[id], id, log, folder);
              if next.Some? then next.value == st != proposals[id].state else st == proposals[id].state
    {
      assert log[..|log|] == log;
      if id !in latest {
        return None;
      }
      var i := latest[id];
      var completed := i in outcomes && outcomes[i];
      next := NextState(t, proposals[id], log[i], completed, folder);
      if next.Some? {
        NextMoves(t, proposals[id], log[i], completed, folder);
      }
    }

    /** Adds the recorded set-asides that a proposal lacks. */
    method AddAsides(asides: seq<(Id, string)>) returns (moved: nat)
      modifies `proposals
      ensures proposals.Keys == old(proposals).Keys && (moved == 0 <==> proposals == old(proposals))
      ensures forall id :: id in proposals ==> proposals[id] == WithAsides(old(proposals)[id], asides, id)
    {
      moved := 0;
      ghost var before := proposals;
      for k := 0 to |asides|
        invariant proposals.Keys == before.Keys
        invariant forall id :: id in before ==> proposals[id] == WithAsides(before[id], asides[..k], id)
        invariant moved == 0 <==> proposals == before
      {
        assert asides[..k + 1][..k] == asides[..k];
        var (kept, aside) := asides[k];
        if kept in proposals && proposals[kept].content.Memory? && aside !in proposals[kept].setAside {
          proposals := proposals[kept := proposals[kept].(setAside := proposals[kept].setAside + {aside})];
          moved := moved + 1;
          assert aside in proposals[kept].setAside && aside !in before[kept].setAside;
        }
      }
      assert asides[..|asides|] == asides;
    }

    /** Moves proposals forward to what the decision log says, and returns how many moves that took. */
    method ReconcileWithLog() returns (moved: nat)
      modifies `proposals
      ensures proposals == Reconcile(t, old(proposals), log, folder)
      ensures moved == 0 <==> proposals == old(proposals)
    {
      ghost var before := proposals;
      var outcomes, latest, asides := ReadPage();
      var states := MoveStates(outcomes, latest, asides);
      ghost var after := proposals;
      var added := AddAsides(asides);
      MovesReconcile(t, before, after, proposals, log, folder, outcomes, latest, asides);
      MovesAreSeen(t, before, after, proposals, log, folder);
      moved := states + added;
    }

    // ----- Saving ------------------------------------------------------------------------------------------------

    /** The oldest of these proposals. */
    method OldestOf(ids: set<Id>) returns (oldest: Id)
      requires ids != {} && ids <= proposals.Keys
      ensures oldest in ids && forall id :: id in ids && id != oldest ==> Older(proposals, oldest, id)
    {
      oldest :| oldest in ids;
      var todo := ids - {oldest};
      while todo != {}
        invariant todo <= ids && oldest in ids && oldest !in todo
        invariant forall id :: id in ids && id !in todo && id != oldest ==> Older(proposals, oldest, id)
        decreases |todo|
      {
        var id :| id in todo;
        if Older(proposals, id, oldest) {
          oldest := id;
        }
        todo := todo - {id};
      }
    }

    /** Drops the oldest decided proposals beyond the limit. */
    method Prune()
      modifies `proposals
      ensures IsPruned(old(proposals), proposals)
    {
      ghost var before := proposals;
      var decided := DecidedIn(proposals);
      while |decided| > MAX_KEPT_DECIDED
        invariant decided == DecidedIn(proposals) && decided <= DecidedIn(before)
        invariant forall id :: id in proposals ==> id in before && proposals[id] == before[id]
        invariant forall id :: id in before && before[id].state.Awaiting() ==> id in proposals
        invariant forall a, b :: a in DecidedIn(before) && a !in proposals && b in decided ==> Older(before, a, b)
        invariant |decided| >= MAX_KEPT_DECIDED || decided == DecidedIn(before)
        decreases |decided|
      {
        var oldest := OldestOf(decided);
        proposals := proposals - {oldest};
        decided := decided - {oldest};
      }
      assert |DecidedIn(before)| <= MAX_KEPT_DECIDED ==> decided == DecidedIn(before) by {
        FewerIsAll(decided, DecidedIn(before));
      }
    }

    /** Rewrites the proposals file. */
    method Save(saveOk: bool)
      modifies `proposals, `file, `saved
      ensures IsPruned(old(proposals), proposals)
      ensures file == (if saveOk then proposals else old(file))
      ensures saved == old(saved) + (if saveOk then {proposals} else {})
    {
      Prune();
      if saveOk {
        file := proposals;
        saved := saved + {proposals};
      }
    }

    // ----- Conflicts ------------------------------------------------------------------------------------------

    /** Contradictions with the memories core passed in. */
    method KnownConflictsOf(key: string, value: string, known: seq<Known>) returns (r: Result<set<Conflict>, LearnError>)
      ensures r.Err? <==> KnownSays(t, key, value, known)
      ensures r.Err? ==> r.error.AlreadyKnown? && r.error.existing.MemoryRef?
      ensures r.Err? ==> SaysTheSame(t, proposals, key, value, known, None, r.error.existing)
      ensures r.Ok? ==> r.value == KnownConflicts(t, key, known)
    {
      var out: set<Conflict> := {};
      for i := 0 to |known|
        invariant out == set j | 0 <= j < i && SameKey(t, known[j].key, key) :: Conflict(Contradiction, MemoryRef(known[j].id))
        invariant forall j :: 0 <= j < i && SameKey(t, known[j].key, key) ==> !SameValue(t, known[j].value, value)
      {
        if SameKey(t, known[i].key, key) {
          if SameValue(t, known[i].value, value) {
            return Err(AlreadyKnown(MemoryRef(known[i].id)));
          }
          out := out + {Conflict(Contradiction, MemoryRef(known[i].id))};
        }
      }
      return Ok(out);
    }

    /** Clashes with the other memory proposals. */
    method RivalConflictsOf(key: string, value: string, exclude: Option<Id>) returns (r: Result<set<Conflict>, LearnError>)
      ensures r.Err? <==> RivalSays(t, proposals, key, value, exclude)
      ensures r.Err? ==> r.error.AlreadyKnown? && r.error.existing.ProposalRef?
      ensures r.Err? ==> SaysTheSame(t, proposals, key, value, [], exclude, r.error.existing)
      ensures r.Ok? ==> r.value == RivalConflicts(t, proposals, key, exclude)
    {
      var out: set<Conflict> := {};
      var todo := proposals.Keys;
      while todo != {}
        invariant todo <= proposals.Keys
        invariant out == set id | id in proposals && id !in todo && Rival(t, proposals, key, exclude, id)
                            :: MemoryConflict(proposals, id)
        invariant forall id :: id in proposals && id !in todo && Rival(t, proposals, key, exclude, id) ==>
                    !SameValue(t, proposals[id].content.value, value)
        decreases |todo|
      {
        var id :| id in todo;
        todo := todo - {id};
        if Rival(t, proposals, key, exclude, id) {
          if SameValue(t, proposals[id].content.value, value) {
            return Err(AlreadyKnown(ProposalRef(id)));
          }
          out := out + {MemoryConflict(proposals, id)};
        }
      }
      return Ok(out);
    }

    /** Conflicts for a memory, or `AlreadyKnown` when something says the same already. */
    method MemoryConflictsOf(key: string, value: string, known: seq<Known>, exclude: Option<Id>)
      returns (r: Result<set<Conflict>, LearnError>)
      ensures r.Err? <==> MemoryKnown(t, proposals, key, value, known, exclude)
      ensures r.Err? ==> r.error.AlreadyKnown? && SaysTheSame(t, proposals, key, value, known, exclude, r.error.existing)
      ensures r.Ok? ==> r.value == MemoryConflicts(t, proposals, key, known, exclude)
      ensures r.Err? <==> SaidAlready(t, proposals, known, exclude, key, value)
      ensures r.Ok? ==> forall x :: x in r.value <==> MemoryClash(t, proposals, known, exclude, key, x)
    {
      SaidAlreadyExactly(t, proposals, key, value, known, exclude);
      MemoryClashesAre(t, proposals, key, known, exclude);
      var known0 :- KnownConflictsOf(key, value, known);
      var rivals :- RivalConflictsOf(key, value, exclude);
      return Ok(known0 + rivals);
    }

    /** Other pending proposals for the skill name. */
    method SkillRivalsOf(name: string, md: string, exclude: Option<Id>) returns (r: Result<set<Conflict>, LearnError>)
      ensures r.Err? <==> SkillRivalIs(t, proposals, name, md, exclude)
      ensures r.Err? ==> r.error.AlreadyKnown?
      ensures r.Ok? ==> r.value == SkillRivals(t, proposals, name, exclude)
    {
      var out: set<Conflict> := {};
      var todo := proposals.Keys;
      while todo != {}
        invariant todo <= proposals.Keys
        invariant out == set id | id in proposals && id !in todo && SkillRival(t, proposals, name, exclude, id)
                            :: Conflict(PendingProposal, ProposalRef(id))
        invariant forall id :: id in proposals && id !in todo && SkillRival(t, proposals, name, exclude, id) ==>
                    proposals[id].content.md != md
        decreases |todo|
      {
        var id :| id in todo;
        todo := todo - {id};
        if SkillRival(t, proposals, name, exclude, id) {
          if proposals[id].content.md == md {
            return Err(AlreadyKnown(ProposalRef(id)));
          }
          out := out + {Conflict(PendingProposal, ProposalRef(id))};
        }
      }
      return Ok(out);
    }

    /** Conflicts for a skill, or `AlreadyKnown` when the identical skill is already there. */
    method SkillConflictsOf(name: string, md: string, exclude: Option<Id>) returns (r: Result<set<Conflict>, LearnError>)
      ensures r.Err? <==> SkillKnown(t, proposals, folder, name, md, exclude)
      ensures r.Err? ==> r.error.AlreadyKnown?
      ensures r.Ok? ==> r.value == SkillConflicts(t, proposals, folder, others, name, exclude)
      ensures r.Err? <==> OfferedAlready(t, proposals, folder, exclude, name, md)
      ensures r.Ok? ==> forall x :: x in r.value <==> SkillClash(t, proposals, folder, others, exclude, name, x)
    {
      OfferedAlreadyExactly(t, proposals, folder, name, md, exclude);
      SkillClashesAre(t, proposals, folder, others, name, exclude);
      var out: set<Conflict> := {};
      if name in folder {
        if folder[name] == md {
          return Err(AlreadyKnown(SkillRef("user", name)));
        }
        out := out + {Conflict(SameNameSkill, SkillRef("user", name))};
      }
      if name in others {
        out := out + {Conflict(ShadowsSkill, SkillRef(others[name], name))};
      }
      var rivals :- SkillRivalsOf(name, md, exclude);
      return Ok(out + rivals);
    }

    // ----- The member's calls -------------------------------------------------------------------------------------

    /** What a proposal would be kept as, and its conflicts. */
    method Admit(content: Content, known: seq<Known>) returns (r: Result<(Content, set<Conflict>), LearnError>)
      ensures r.Ok? <==> Admitted(t, others, View(), content, known).Some?
      ensures r.Ok? ==> Admitted(t, others, View(), content, known) == Some(r.value)
    {
      match content
      case Skill(md) =>
        var name := t.nameOf(md);
        if name.None? {
          return Err(InvalidContent);
        }
        var conflicts :- SkillConflictsOf(name.value, md, None);
        return Ok((content, conflicts));
      case Memory(key, value) =>
        if !t.memoryOk(key, value) {
          return Err(InvalidContent);
        }
        var conflicts :- MemoryConflictsOf(t.trim(key), t.trim(value), known, None);
        return Ok((Memory(t.trim(key), t.trim(value)), conflicts));
    }

    /** Proposes a skill or memory under an id that was never used. */
    method Propose(id: Id, content: Content, known: seq<Known>, now: nat, saveOk: bool) returns (r: Result<Proposal, LearnError>)
      requires id !in issued && id !in proposals
      modifies this
      ensures CallStep(t, others, old(View()), Call.Propose(id, content, known, now, saveOk), proposals, View())
      ensures r.Ok? <==> TakesIn(t, old(View()), content, known) && saveOk
      ensures r.Ok? ==> id in proposals && proposals[id] == r.value
      ensures r.Ok? ==> KeptAsProposed(t, others, old(View()), content, known, now, r.value)
    {
      ghost var w, c := View(), Call.Propose(id, content, known, now, saveOk);
      AdmittedExactly(t, others, w, content, known, now);
      var pending := set i | i in proposals && proposals[i].state.Awaiting();
      assert pending == PendingIn(proposals);
      if |pending| >= MAX_PENDING {
        NothingStep(t, others, w, c);
        return Err(TooManyPending);
      }
      var admitted := Admit(content, known);
      if admitted.Err? {
        NothingStep(t, others, w, c);
        return Err(admitted.error);
      }
      var p := Proposal(admitted.value.0, now, admitted.value.1, Proposed, {});
      KeepProposal(id, p, saveOk);
      ProposeStep(t, others, w, c, p, proposals, View());
      return if saveOk then Ok(p) else Err(NotSaved);
    }

    /** Adds a proposal and saves; when that fails the proposal is forgotten. */
    method KeepProposal(id: Id, p: Proposal, saveOk: bool)
      requires id !in proposals && p.state.Awaiting()
      modifies this
      ensures saveOk ==>
                && id in proposals && proposals[id] == p && IsPruned(old(proposals)[id := p], proposals)
                && View() == SavedWorld(old(View()), true, proposals).(ps := proposals, issued := old(issued)[id := p.content])
      ensures !saveOk ==>
                && id !in proposals && IsPruned(old(proposals)[id := p], proposals[id := p])
                && View() == old(View()).(ps := proposals)
    {
      proposals := proposals[id := p];
      Save(saveOk);
      assert id in proposals && proposals[id] == p;
      if saveOk {
        issued := issued[id := p.content];
      } else {
        ghost var withIt := proposals;
        proposals := proposals - {id};
        assert proposals[id := p] == withIt;
      }
    }

    /** The member rejects a proposal. */
    method Reject(id: Id, member: string, reason: string, recordOk: bool, saveOk: bool) returns (r: Result<(), LearnError>)
      modifies this
      ensures CallStep(t, others, old(View()), Call.Reject(id, member, reason, recordOk, saveOk), proposals, View())
      ensures r.Ok? <==> id in old(proposals) && old(proposals)[id].state.Awaiting() && recordOk
    {
      ghost var w, c := View(), Call.Reject(id, member, reason, recordOk, saveOk);
      if !(id in proposals && proposals[id].state.Awaiting() && recordOk) {
        NothingStep(t, others, w, c);
        return Err(if id !in proposals then UnknownProposal else if !proposals[id].state.Awaiting() then WrongState else NotRecorded);
      }
      var p := proposals[id];
      log := log + [Decided(LearnKind(p.content), false, Some(id), member, reason, None, None)];
      proposals := proposals[id := p.(state := Rejected(member, reason))];
      Save(saveOk);
      RejectStep(t, others, w, c, proposals, View());
      return Ok(());
    }

    /** The conflicts an accept must have acknowledged. */
    method CurrentConflicts(id: Id) returns (r: Result<set<Conflict>, LearnError>)
      requires id in proposals
      ensures r.Ok? <==> FreshConflicts(t, others, View(), id).Some?
      ensures r.Ok? ==> FreshConflicts(t, others, View(), id) == Some(r.value)
    {
      match proposals[id].content
      case Skill(md) =>
        var name := if t.nameOf(md).Some? then t.nameOf(md).value else "";
        r := SkillConflictsOf(name, md, Some(id));
      case Memory(key, value) =>
        var current :- MemoryConflictsOf(key, value, [], Some(id));
        r := Ok(current + StillContradicts(proposals[id].conflicts, current));
    }

    /** The member accepts a proposal: the decision is recorded, then its effect happens. `failure` says why a
        skill could not be written, if so. */
    method Accept(id: Id, member: string, acked: set<Ref>, recordOk: bool, failure: Option<string>, closeOk: bool, saveOk: bool)
      returns (r: Result<Kept, LearnError>)
      modifies this
      ensures CallStep(t, others, old(View()), Call.Accept(id, member, acked, recordOk, failure, closeOk, saveOk),
                       proposals, View())
      ensures r.Ok? <==>
                && GoesThrough(t, others, old(View()), Call.Accept(id, member, acked, recordOk, failure, closeOk, saveOk))
                && !CannotPersist(t, old(View()), old(proposals)[id].content, failure) && closeOk
      ensures r.Ok? ==> Handed(t, others, old(View()), id, acked, member, |old(log)|, r.value)
    {
      ghost var w, c := View(), Call.Accept(id, member, acked, recordOk, failure, closeOk, saveOk);
      if id in proposals {
        FreshExactly(t, others, w, id);
      }
      var checked := CheckAccept(c, id, acked, recordOk);
      if checked.Err? {
        return Err(checked.error);
      }
      ghost var mid := View();
      var problem;
      r, problem := Carry(id, member, failure, closeOk, saveOk);
      CarriedStep(t, others, w, c, mid, problem, View());
      if r.Ok? {
        KeptIsHanded(t, others, w, id, acked, member, |w.log|, failure);
      }
    }

    /** Everything that can refuse an accept. The conflicts found now replace the stored ones either way. */
    method CheckAccept(ghost c: Call, id: Id, acked: set<Ref>, recordOk: bool) returns (r: Result<(), LearnError>)
      requires c.Accept? && c.id == id && c.acked == acked && c.recordOk == recordOk
      modifies `proposals
      ensures r.Err? ==> CallStep(t, others, old(View()), c, proposals, View())
      ensures r.Ok? <==>
                && id in old(proposals) && old(proposals)[id].state.Awaiting() && recordOk
                && FreshConflicts(t, others, old(View()), id).Some?
                && Acceptable(FreshConflicts(t, others, old(View()), id).value, acked)
      ensures r.Ok? ==>
                && id in proposals && FreshConflicts(t, others, old(View()), id) == Some(proposals[id].conflicts)
                && proposals == old(proposals)[id := old(proposals)[id].(conflicts := proposals[id].conflicts)]
    {
      ghost var w := View();
      if !(id in proposals && proposals[id].state.Awaiting()) {
        NothingStep(t, others, w, c);
        return Err(if id !in proposals then UnknownProposal else WrongState);
      }
      var current := CurrentConflicts(id);
      if current.Err? {
        NothingStep(t, others, w, c);
        return Err(current.error);
      }
      var conflicts := current.value;
      proposals := proposals[id := proposals[id].(conflicts := conflicts)];
      var blocking := set x | x in conflicts && x.Blocking();
      var missing := set x | x in conflicts && x.existing !in acked;
      if blocking != {} || missing != {} || !recordOk {
        RefusedAcceptStep(t, others, w, c, conflicts, blocking, missing, View());
        return Err(if blocking != {} then Blocked(blocking) else if missing != {} then Unacknowledged(missing) else NotRecorded);
      }
      NoneMissing(conflicts, acked, blocking, missing);
      return Ok(());
    }

    /** Records the accept, persists, records the outcome and saves. */
    method Carry(id: Id, member: string, failure: Option<string>, closeOk: bool, saveOk: bool)
      returns (r: Result<Kept, LearnError>, problem: Option<string>)
      requires id in proposals
      modifies this
      ensures problem == PersistFailure(t, old(View()), old(proposals)[id].content, failure)
      ensures IsPruned(old(proposals)[id := old(proposals)[id].(state := StateAfter(problem))], proposals)
      ensures folder == WithSkill(t, old(folder), old(proposals)[id].content, problem) && issued == old(issued)
      ensures log == old(log) + [Decided(LearnKind(old(proposals)[id].content), true, Some(id), member, "", None, None)]
                     + (if closeOk then [Closed(|old(log)|, problem.None?)] else [])
      ensures file == (if saveOk then proposals else old(file))
      ensures saved == old(saved) + (if saveOk then {proposals} else {})
      ensures r.Ok? <==> problem.None? && closeOk
      ensures r.Ok? ==> r.value == KeptAs(t, id, old(proposals)[id], member, |old(log)|)
    {
      var p := proposals[id];
      var decisionSeq := |log|;
      log := log + [Decided(LearnKind(p.content), true, Some(id), member, "", None, None)];
      problem := PersistSkill(p.content, failure);
      if closeOk {
        log := log + [Closed(decisionSeq, problem.None?)];
      }
      proposals := proposals[id := p.(state := StateAfter(problem))];
      Save(saveOk);
      r := if problem.Some? then Err(NotPersisted(problem.value))
           else if !closeOk then Err(NotRecorded)
           else Ok(KeptAs(t, id, p, member, decisionSeq));
    }

    /** Writes a skill into its folder; a memory is handed to core. */
    method PersistSkill(content: Content, failure: Option<string>) returns (problem: Option<string>)
      modifies `folder
      ensures problem == PersistFailure(t, old(View()), content, failure)
      ensures folder == WithSkill(t, old(folder), content, problem)
    {
      match content
      case Memory(_, _) => problem := None;
      case Skill(md) =>
        var name := t.nameOf(md);
        if name.None? {
          return Some("invalid skill");
        }
        if name.value in folder {
          return Some("appeared in the skills folder");
        }
        if failure.None? {
          folder := folder[name.value := md];
        }
        problem := failure;
    }

    /** The member keeps one of two memories that contradict each other, and retracts the other. */
    method ResolveTwo(keep: Id, retract: Id, member: string, recordOk: bool, closeOk: bool, saveOk: bool)
      returns (r: Result<(), LearnError>)
      modifies this
      ensures CallStep(t, others, old(View()), Call.ResolveTwo(keep, retract, member, recordOk, closeOk, saveOk), proposals, View())
      ensures r.Ok? ==>
                && PersistedMemory(old(proposals), keep) && PersistedMemory(old(proposals), retract)
                && Contradictory(t, old(proposals)[keep], old(proposals)[retract])
    {
      ghost var w, c := View(), Call.ResolveTwo(keep, retract, member, recordOk, closeOk, saveOk);
      if !(keep != retract && PersistedMemory(proposals, keep) && PersistedMemory(proposals, retract)
           && Contradictory(t, proposals[keep], proposals[retract])) {
        NothingStep(t, others, w, c);
        return Err(NotAContradiction);
      }
      if !recordOk {
        NothingStep(t, others, w, c);
        return Err(NotRecorded);
      }
      var entry, p := Decided(Resolve, true, Some(retract), member, "", Some(ProposalRef(keep)), None),
                      proposals[retract].(state := Retracted(member, ProposalRef(keep)));
      r := Settle(entry, retract, p, closeOk, saveOk);
      SettleStep(t, others, w, c, entry, retract, p, closeOk, saveOk, proposals, View());
    }

    /** Records a decision about a persisted proposal, changes it, saves, and records the outcome. */
    method Settle(entry: Entry, id: Id, p: Proposal, closeOk: bool, saveOk: bool) returns (r: Result<(), LearnError>)
      requires id in proposals
      modifies this
      ensures Settling(old(View()), entry, id, p, closeOk, saveOk, proposals, View())
      ensures r.Ok? <==> closeOk
    {
      var decisionSeq := |log|;
      log := log + [entry];
      proposals := proposals[id := p];
      Save(saveOk);
      if !closeOk {
        return Err(NotRecorded);
      }
      log := log + [Closed(decisionSeq, true)];
      return Ok(());
    }

    /** The member keeps a learned memory and sets a known one aside. */
    method KeepLearned(id: Id, known: string, member: string, recordOk: bool, closeOk: bool, saveOk: bool)
      returns (r: Result<(), LearnError>)
      modifies this
      ensures CallStep(t, others, old(View()), Call.KeepLearned(id, known, member, recordOk, closeOk, saveOk), proposals, View())
      ensures r.Ok? ==> Resolvable(old(View()), id, known)
    {
      ghost var w, c := View(), Call.KeepLearned(id, known, member, recordOk, closeOk, saveOk);
      if !CanResolve(id, known) || !recordOk {
        NothingStep(t, others, w, c);
        return Err(if recordOk then NotAContradiction else NotRecorded);
      }
      var entry, p := Decided(Resolve, true, None, member, "", Some(ProposalRef(id)), Some(known)),
                      proposals[id].(setAside := proposals[id].setAside + {known});
      r := Settle(entry, id, p, closeOk, saveOk);
      SettleStep(t, others, w, c, entry, id, p, closeOk, saveOk, proposals, View());
    }

    /** The member keeps a known memory and retracts the learned one. */
    method KeepKnown(id: Id, known: string, member: string, recordOk: bool, closeOk: bool, saveOk: bool)
      returns (r: Result<(), LearnError>)
      modifies this
      ensures CallStep(t, others, old(View()), Call.KeepKnown(id, known, member, recordOk, closeOk, saveOk), proposals, View())
      ensures r.Ok? ==> Resolvable(old(View()), id, known)
    {
      ghost var w, c := View(), Call.KeepKnown(id, known, member, recordOk, closeOk, saveOk);
      if !CanResolve(id, known) || !recordOk {
        NothingStep(t, others, w, c);
        return Err(if recordOk then NotAContradiction else NotRecorded);
      }
      var entry, p := Decided(Resolve, true, Some(id), member, "", Some(MemoryRef(known)), None),
                      proposals[id].(state := Retracted(member, MemoryRef(known)));
      r := Settle(entry, id, p, closeOk, saveOk);
      SettleStep(t, others, w, c, entry, id, p, closeOk, saveOk, proposals, View());
    }

    predicate CanResolve(id: Id, known: string)
      reads this
      ensures CanResolve(id, known) <==> Resolvable(View(), id, known)
    {
      && ValidKnown(known) && PersistedMemory(proposals, id)
      && Conflict(Contradiction, MemoryRef(known)) in proposals[id].conflicts && known !in proposals[id].setAside
    }

    /** Builds the publish of a persisted skill, after the member's approval. */
    method PreparePublish(id: Id, member: string, paramsOk: bool, recordOk: bool, closeOk: bool, saveOk: bool)
      returns (r: Result<(), LearnError>)
      modifies this
      ensures CallStep(t, others, old(View()), Call.PreparePublish(id, member, paramsOk, recordOk, closeOk, saveOk), proposals, View())
      ensures r.Ok? ==> id in old(proposals) && OnDisk(t, old(proposals)[id].content, folder)
    {
      ghost var w, c := View(), Call.PreparePublish(id, member, paramsOk, recordOk, closeOk, saveOk);
      if !(id in proposals && proposals[id].content.Skill?
           && (proposals[id].state.Persisted? || proposals[id].state.PublishPrepared?)) {
        NothingStep(t, others, w, c);
        return Err(if id !in proposals then UnknownProposal else if !proposals[id].content.Skill? then NotASkill else WrongState);
      }
      if !paramsOk || !OnDisk(t, proposals[id].content, folder) || !recordOk {
        NothingStep(t, others, w, c);
        return Err(if !paramsOk then InvalidPublish else if recordOk then ContentChanged else NotRecorded);
      }
      var entry, p := Decided(Publish, true, Some(id), member, "", None, None),
                      proposals[id].(state := PublishPrepared);
      r := Settle(entry, id, p, closeOk, saveOk);
      SettleStep(t, others, w, c, entry, id, p, closeOk, saveOk, proposals, View());
    }
  }

  // ----- Reconciling, as values ------------------------------------------------------------------------------------

  /** The set-asides of this proposal in the list. */
  function AsidesFor(p: Proposal, asides: seq<(Id, string)>, id: Id): (xs: set<string>) {
    if asides == [] then {} else
      var xs, last := AsidesFor(p, asides[..|asides| - 1], id), asides[|asides| - 1];
      if p.content.Memory? && last.0 == id then xs + {last.1} else xs
  }

  function WithAsides(p: Proposal, asides: seq<(Id, string)>, id: Id): (r: Proposal) {
    p.(setAside := p.setAside + AsidesFor(p, asides, id))
  }

  /** What reading the page up to `k` has found. */
  ghost predicate PageRead(log: Log, k: nat, outcomes: map<nat, bool>, latest: map<Id, nat>, asides: seq<(Id, string)>) {
    var from := PageStart(log);
    && from <= k <= |log|
    && (forall d :: CompletedIn(log[..k], from, d) == (d in outcomes && outcomes[d]))
    && (forall id :: Latest(log[..k], from, id) == if id in latest then Some(latest[id]) else None)
    && (forall p: Proposal, id :: p.content.Memory? ==> AsidesFor(p, asides, id) == SetAsides(log[..k], from, id))
  }

  lemma PageGrows(log: Log, k: nat, outcomes: map<nat, bool>, latest: map<Id, nat>, asides: seq<(Id, string)>)
    requires PageRead(log, k, outcomes, latest, asides) && k < |log|
    ensures log[..k + 1][..k] == log[..k]
    ensures log[k].Closed? ==> PageRead(log, k + 1, outcomes[log[k].decision := log[k].completed], latest, asides)
    ensures SetsAside(log[k]) && log[k].kept.value.ProposalRef? && ValidKnown(log[k].aside.value) ==>
              PageRead(log, k + 1, outcomes, latest, asides + [(log[k].kept.value.id, log[k].aside.value)])
    ensures SetsAside(log[k]) && !(log[k].kept.value.ProposalRef? && ValidKnown(log[k].aside.value)) ==>
              PageRead(log, k + 1, outcomes, latest, asides)
    ensures log[k].Decided? && !SetsAside(log[k]) ==>
              PageRead(log, k + 1, outcomes,
                       if log[k].about.Some? then latest[log[k].about.value := k] else latest, asides)
  {
    assert log[..k + 1][..k] == log[..k];
    if SetsAside(log[k]) && log[k].kept.value.ProposalRef? && ValidKnown(log[k].aside.value) {
      var more := asides + [(log[k].kept.value.id, log[k].aside.value)];
      assert more[..|asides|] == asides && more[|asides|] == (log[k].kept.value.id, log[k].aside.value);
      var from := PageStart(log);
      forall p: Proposal, id | p.content.Memory?
        ensures AsidesFor(p, more, id) == SetAsides(log[..k + 1], from, id)
      {
        assert AsidesFor(p, asides, id) == SetAsides(log[..k], from, id);
      }
    }
  }

  /** A state the log moves a proposal to is never the one it has. */
  lemma NextMoves(t: Text, p: Proposal, e: Entry, completed: bool, folder: map<string, string>)
    requires e.Decided? && NextState(t, p, e, completed, folder).Some?
    ensures NextState(t, p, e, completed, folder).value != p.state
  {
  }

  lemma AsidesAre(log: Log, asides: seq<(Id, string)>, p: Proposal, id: Id)
    requires exists outcomes, latest :: PageRead(log, |log|, outcomes, latest, asides)
    ensures AsidesFor(p, asides, id) == if p.content.Memory? then SetAsides(log, PageStart(log), id) else {}
  {
    assert log[..|log|] == log;
    if !p.content.Memory? {
      NoAsides(p, asides, id);
    }
  }

  lemma {:induction false} NoAsides(p: Proposal, asides: seq<(Id, string)>, id: Id)
    requires !p.content.Memory?
    ensures AsidesFor(p, asides, id) == {}
    decreases |asides|
  {
    if asides != [] {
      NoAsides(p, asides[..|asides| - 1], id);
    }
  }

  /** Moving the states and then adding the set-asides reconciles the proposals. */
  lemma MovesReconcile(
      t: Text, before: Proposals, states: Proposals, after: Proposals, log: Log, folder: map<string, string>,
      outcomes: map<nat, bool>, latest: map<Id, nat>, asides: seq<(Id, string)>)
    requires PageRead(log, |log|, outcomes, latest, asides)
    requires states.Keys == before.Keys && after.Keys == before.Keys
    requires forall id :: id in before ==>
               states[id] == before[id].(state := MovedState(t, before[id], id, log, folder))
    requires forall id :: id in after ==> after[id] == WithAsides(states[id], asides, id)
    ensures after == Reconcile(t, before, log, folder)
  {
    forall id | id in before ensures after[id] == Reconciled(t, before[id], id, log, folder) {
      AsidesAre(log, asides, states[id], id);
    }
  }

  /** Nothing moved exactly when neither the states nor the set-asides changed. */
  lemma MovesAreSeen(
      t: Text, before: Proposals, states: Proposals, after: Proposals, log: Log, folder: map<string, string>)
    requires states.Keys == before.Keys && after == Reconcile(t, before, log, folder)
    requires forall id :: id in before ==>
               states[id] == before[id].(state := MovedState(t, before[id], id, log, folder))
    ensures states == before && after == states <==> after == before
  {
    if after == before {
      forall id | id in before ensures states[id] == before[id] {
        assert after[id] == Reconciled(t, before[id], id, log, folder);
      }
    }
  }

  lemma FewerIsAll(a: set<Id>, b: set<Id>)
    requires a <= b
    ensures |a| == |b| <==> a == b
    ensures |a| <= |b|
  {
    assert b == a + (b - a);
    assert |b| == |a| + |b - a|;
  }

  /** What the conflict names says the same. */
  predicate SaysTheSame(
      t: Text, ps: Proposals, key: string, value: string, known: seq<Known>, exclude: Option<Id>, existing: Ref)
  {
    match existing
    case MemoryRef(name) =>
      exists i :: 0 <= i < |known| && known[i].id == name && SameKey(t, known[i].key, key) && SameValue(t, known[i].value, value)
    case ProposalRef(id) => Rival(t, ps, key, exclude, id) && SameValue(t, ps[id].content.value, value)
    case SkillRef(_, _) => false
  }

  // ----- Steps ------------------------------------------------------------------------------------------------------

  ghost predicate InsideStep(w: World) {
    true
  }

  /** A call that ran to its end is a step of the run. (Closed: the methods only pass it on.) */
  ghost predicate CallStep(t: Text, others: map<string, string>, w: World, c: Call, kept: Proposals, w': World) {
    forall x: World {:trigger InsideStep(x)} :: x == w' ==> Step(t, others, w, Do(c), kept, map[], x)
  }

  lemma CallStepIsStep(t: Text, others: map<string, string>, w: World, c: Call, kept: Proposals, w': World)
    ensures CallStep(t, others, w, c, kept, w') <==> Step(t, others, w, Do(c), kept, map[], w')
  {
    assert InsideStep(w');
  }

  /** What every method keeps: contradicting memories acknowledge each other, in memory and in every file;
      what the log settles cannot be accepted; the last file saved is not ahead. The log only grows. */
  lemma EveryCallKeeps(t: Text, others: map<string, string>, w: World, c: Call, kept: Proposals, w': World)
    requires CallStep(t, others, w, c, kept, w')
    requires Typed(w) && AllAgree(t, w) && SettledIsDecided(w) && FileIsBehind(w)
    ensures Typed(w') && AllAgree(t, w') && SettledIsDecided(w') && FileIsBehind(w')
    ensures w.log <= w'.log
  {
    CallStepIsStep(t, others, w, c, kept, w');
    StepKeepsTyped(t, others, w, Do(c), kept, map[], w');
    StepKeepsAgreement(t, others, w, Do(c), kept, map[], w');
    StepKeepsDecided(t, others, w, Do(c), kept, map[], w');
    StepStaysBehind(t, others, w, Do(c), kept, map[], w');
  }

  /** What opening establishes, on the last file saved or any other. */
  lemma OpeningKeeps(t: Text, w: World, snapshot: Proposals, kept: Proposals, w': World)
    requires Reopened(t, w, snapshot, kept, w') && Typed(w) && AllAgree(t, w)
    ensures Typed(w') && AllAgree(t, w') && SettledIsDecided(w') && w'.log == w.log
    ensures snapshot == w.file && RejectedOnFile(w) ==> FileIsBehind(w')
  {
    ReopenIsTyped(t, w, snapshot, kept, w');
    ReopenIsDecided(t, w, snapshot, kept, w');
    ReconcileAgrees(t, snapshot, w.log, w.folder);
    if Reconcile(t, snapshot, w.log, w.folder) != snapshot {
      PrunedAgree(t, Reconcile(t, snapshot, w.log, w.folder), kept);
    }
    if snapshot == w.file && RejectedOnFile(w) {
      ReopenStaysBehind(t, w, kept, w');
    }
  }

  // ----- Writes, as values --------------------------------------------------------------------------------------------

  lemma SavedIf(w: World, ok: bool, kept: Proposals)
    ensures AppliedAll(w, SaveIf(ok), kept) == if ok then w.(file := kept, saved := w.saved + {kept}) else w
  {
    if ok {
      AppliedOne(w, LearnCalls.Save, kept);
    }
  }

  lemma ClosedIf(w: World, ok: bool, log: Log, completed: bool, kept: Proposals)
    ensures AppliedAll(w, CloseIf(ok, log, completed), kept) ==
            if ok then w.(log := w.log + [Closed(|log|, completed)]) else w
  {
    if ok {
      AppliedOne(w, Note(Closed(|log|, completed)), kept);
    }
  }

  /** Saving, if it worked. */
  function SavedWorld(w: World, ok: bool, kept: Proposals): (r: World) {
    if ok then w.(file := kept, saved := w.saved + {kept}) else w
  }

  function Noted(w: World, entry: Entry): (r: World) {
    w.(log := w.log + [entry])
  }

  /** A call without effect is a step. */
  lemma NothingStep(t: Text, others: map<string, string>, w: World, c: Call)
    requires EffectOf(t, others, w, c) == Nothing(w) && FreshIds(w, c) && (c.Propose? ==> c.id !in w.ps)
    ensures CallStep(t, others, w, c, w.ps, w)
  {
    CallStepIsStep(t, others, w, c, w.ps, w);
  }

  lemma ProposeStep(t: Text, others: map<string, string>, w: World, c: Call, p: Proposal, kept: Proposals, w': World)
    requires c.Propose? && FreshIds(w, c) && c.id !in w.ps && |PendingIn(w.ps)| < MAX_PENDING
    requires Admitted(t, others, w, c.content, c.memories) == Some((p.content, p.conflicts))
    requires p == Proposal(p.content, c.now, p.conflicts, Proposed, {})
    requires if c.saveOk then
               IsPruned(w.ps[c.id := p], kept)
               && w' == SavedWorld(w, true, kept).(ps := kept, issued := w.issued[c.id := p.content])
             else c.id !in kept && IsPruned(w.ps[c.id := p], kept[c.id := p]) && w' == w.(ps := kept)
    ensures CallStep(t, others, w, c, kept, w')
  {
    if c.saveOk {
      AppliedOne(w, LearnCalls.Save, kept);
    } else {
      PrunedWithout(w.ps, c.id, p, kept);
    }
    CallStepIsStep(t, others, w, c, kept, w');
  }

  lemma NoteThenSave(w: World, entry: Entry, ok: bool, kept: Proposals)
    ensures AppliedAll(w, [Note(entry)] + SaveIf(ok), kept) == SavedWorld(Noted(w, entry), ok, kept)
  {
    AppliedConcat(w, [Note(entry)], SaveIf(ok), kept);
    AppliedOne(w, Note(entry), kept);
    SavedIf(Noted(w, entry), ok, kept);
  }

  lemma RejectStep(t: Text, others: map<string, string>, w: World, c: Call, kept: Proposals, w': World)
    requires c.Reject? && c.id in w.ps && w.ps[c.id].state.Awaiting() && c.recordOk
    requires IsPruned(w.ps[c.id := w.ps[c.id].(state := Rejected(c.member, c.reason))], kept)
    requires var entry := Decided(LearnKind(w.ps[c.id].content), false, Some(c.id), c.member, c.reason, None, None);
             w' == SavedWorld(Noted(w, entry), c.saveOk, kept).(ps := kept)
    ensures CallStep(t, others, w, c, kept, w')
  {
    var entry := Decided(LearnKind(w.ps[c.id].content), false, Some(c.id), c.member, c.reason, None, None);
    NoteThenSave(w, entry, c.saveOk, kept);
    CallStepIsStep(t, others, w, c, kept, w');
  }

  /** The folder with the skill in it, if writing it worked. */
  function WithSkill(t: Text, folder: map<string, string>, content: Content, problem: Option<string>): (r: map<string, string>) {
    if content.Skill? && problem.None? && t.nameOf(content.md).Some? then folder[t.nameOf(content.md).value := content.md]
    else folder
  }

  lemma NoneMissing(conflicts: set<Conflict>, acked: set<Ref>, blocking: set<Conflict>, missing: set<Conflict>)
    requires blocking == (set x | x in conflicts && x.Blocking())
    requires missing == (set x | x in conflicts && x.existing !in acked)
    ensures Acceptable(conflicts, acked) <==> blocking == {} && missing == {}
  {
    if x :| x in conflicts && x.Blocking() {
      assert x in blocking;
    }
    if x :| x in conflicts && x.existing !in acked {
      assert x in missing;
    }
    if x :| x in blocking {
      assert x in conflicts && x.Blocking();
    }
    if x :| x in missing {
      assert x in conflicts && x.existing !in acked;
    }
  }

  lemma RefusedAcceptStep(
      t: Text, others: map<string, string>, w: World, c: Call, conflicts: set<Conflict>, blocking: set<Conflict>,
      missing: set<Conflict>, w': World)
    requires c.Accept? && c.id in w.ps && w.ps[c.id].state.Awaiting()
    requires FreshConflicts(t, others, w, c.id) == Some(conflicts)
    requires blocking == (set x | x in conflicts && x.Blocking())
    requires missing == (set x | x in conflicts && x.existing !in c.acked)
    requires blocking != {} || missing != {} || !c.recordOk
    requires w' == w.(ps := w.ps[c.id := w.ps[c.id].(conflicts := conflicts)])
    ensures CallStep(t, others, w, c, w'.ps, w')
  {
    NoneMissing(conflicts, c.acked, blocking, missing);
    CallStepIsStep(t, others, w, c, w'.ps, w');
  }

  lemma AcceptWrites(w: World, entry: Entry, put: seq<Write>, closeOk: bool, completed: bool, saveOk: bool, kept: Proposals)
    ensures AppliedAll(w, [Note(entry)] + put + CloseIf(closeOk, w.log, completed) + SaveIf(saveOk), kept) ==
            var w1 := AppliedAll(Noted(w, entry), put, kept);
            SavedWorld(if closeOk then Noted(w1, Closed(|w.log|, completed)) else w1, saveOk, kept)
  {
    var close := CloseIf(closeOk, w.log, completed);
    AppliedConcat(w, [Note(entry)] + put + close, SaveIf(saveOk), kept);
    AppliedConcat(w, [Note(entry)] + put, close, kept);
    AppliedConcat(w, [Note(entry)], put, kept);
    AppliedOne(w, Note(entry), kept);
    var w1 := AppliedAll(Noted(w, entry), put, kept);
    ClosedIf(w1, closeOk, w.log, completed, kept);
    SavedIf(AppliedAll(w1, close, kept), saveOk, kept);
  }

  /** What an accept that was recorded does. */
  lemma AcceptedEffect(t: Text, others: map<string, string>, w: World, c: Call, conflicts: set<Conflict>)
    requires c.Accept? && c.id in w.ps && w.ps[c.id].state.Awaiting() && c.recordOk
    requires FreshConflicts(t, others, w, c.id) == Some(conflicts) && Acceptable(conflicts, c.acked)
    ensures EffectOf(t, others, w, c) == AcceptedEffectOf(t, w, c, conflicts)
  {
  }

  function AcceptedProposal(t: Text, w: World, c: Call, conflicts: set<Conflict>): (p: Proposal)
    requires c.Accept? && c.id in w.ps
  {
    var problem := PersistFailure(t, w, w.ps[c.id].content, c.failure);
    w.ps[c.id].(conflicts := conflicts, state := StateAfter(problem))
  }

  function AcceptEntry(w: World, c: Call): (e: Entry)
    requires c.Accept? && c.id in w.ps
  {
    Decided(LearnKind(w.ps[c.id].content), true, Some(c.id), c.member, "", None, None)
  }

  function PutIf(t: Text, content: Content, problem: Option<string>): (ws: seq<Write>)
    requires content.Skill? && problem.None? ==> t.nameOf(content.md).Some?
  {
    if content.Skill? && problem.None? then [Put(t.nameOf(content.md).value, content.md)] else []
  }

  function AcceptedEffectOf(t: Text, w: World, c: Call, conflicts: set<Conflict>): (e: Effect)
    requires c.Accept? && c.id in w.ps
  {
    var content := w.ps[c.id].content;
    var problem := PersistFailure(t, w, content, c.failure);
    Effect([Note(AcceptEntry(w, c))] + PutIf(t, content, problem) + CloseIf(c.closeOk, w.log, problem.None?) + SaveIf(c.saveOk),
           w.ps[c.id := AcceptedProposal(t, w, c, conflicts)], true)
  }

  function AcceptedWorld(t: Text, w: World, c: Call, kept: Proposals): (r: World)
    requires c.Accept? && c.id in w.ps
  {
    var content := w.ps[c.id].content;
    var problem := PersistFailure(t, w, content, c.failure);
    var w1 := Noted(w, AcceptEntry(w, c)).(folder := WithSkill(t, w.folder, content, problem));
    SavedWorld(if c.closeOk then Noted(w1, Closed(|w.log|, problem.None?)) else w1, c.saveOk, kept)
  }

  lemma CarriedWorld(t: Text, w: World, c: Call, problem: Option<string>, kept: Proposals, w': World)
    requires c.Accept? && c.id in w.ps && problem == PersistFailure(t, w, w.ps[c.id].content, c.failure)
    requires w'.ps == kept && w'.issued == w.issued
    requires w'.folder == WithSkill(t, w.folder, w.ps[c.id].content, problem)
    requires w'.log == w.log + [AcceptEntry(w, c)] + (if c.closeOk then [Closed(|w.log|, problem.None?)] else [])
    requires w'.file == (if c.saveOk then kept else w.file) && w'.saved == w.saved + (if c.saveOk then {kept} else {})
    ensures w' == AcceptedWorld(t, w, c, kept).(ps := kept)
  {
  }

  lemma PutApplied(t: Text, w: World, content: Content, problem: Option<string>, kept: Proposals)
    requires content.Skill? && problem.None? ==> t.nameOf(content.md).Some?
    ensures AppliedAll(w, PutIf(t, content, problem), kept) == w.(folder := WithSkill(t, w.folder, content, problem))
  {
    if content.Skill? && problem.None? {
      AppliedOne(w, Put(t.nameOf(content.md).value, content.md), kept);
    }
  }

  lemma AcceptApplied(t: Text, w: World, c: Call, conflicts: set<Conflict>, kept: Proposals)
    requires c.Accept? && c.id in w.ps
    ensures AppliedAll(w, AcceptedEffectOf(t, w, c, conflicts).writes, kept) == AcceptedWorld(t, w, c, kept)
  {
    var content := w.ps[c.id].content;
    var problem := PersistFailure(t, w, content, c.failure);
    AcceptWrites(w, AcceptEntry(w, c), PutIf(t, content, problem), c.closeOk, problem.None?, c.saveOk, kept);
    PutApplied(t, Noted(w, AcceptEntry(w, c)), content, problem, kept);
  }

  lemma EffectIsStep(t: Text, others: map<string, string>, w: World, c: Call, e: Effect, kept: Proposals, w': World)
    requires EffectOf(t, others, w, c) == e && !c.Propose? && e.saves && IsPruned(e.after, kept)
    requires w' == AppliedAll(w, e.writes, kept).(ps := kept, issued := w.issued)
    ensures CallStep(t, others, w, c, kept, w')
  {
    CallStepIsStep(t, others, w, c, kept, w');
  }

  lemma AcceptStep(
      t: Text, others: map<string, string>, w: World, c: Call, conflicts: set<Conflict>, kept: Proposals, w': World)
    requires c.Accept? && c.id in w.ps && w.ps[c.id].state.Awaiting() && c.recordOk
    requires FreshConflicts(t, others, w, c.id) == Some(conflicts) && Acceptable(conflicts, c.acked)
    requires IsPruned(w.ps[c.id := AcceptedProposal(t, w, c, conflicts)], kept)
    requires w' == AcceptedWorld(t, w, c, kept).(ps := kept)
    ensures CallStep(t, others, w, c, kept, w')
  {
    AcceptedEffect(t, others, w, c, conflicts);
    AcceptApplied(t, w, c, conflicts, kept);
    EffectIsStep(t, others, w, c, AcceptedEffectOf(t, w, c, conflicts), kept, w');
  }

  /** The two halves of an accept make one step: `mid` is the world after the conflicts were refreshed. */
  lemma CarriedStep(t: Text, others: map<string, string>, w: World, c: Call, mid: World, problem: Option<string>, w': World)
    requires c.Accept? && c.id in w.ps && w.ps[c.id].state.Awaiting() && c.recordOk && c.id in mid.ps
    requires mid == w.(ps := w.ps[c.id := w.ps[c.id].(conflicts := mid.ps[c.id].conflicts)])
    requires FreshConflicts(t, others, w, c.id) == Some(mid.ps[c.id].conflicts) && Acceptable(mid.ps[c.id].conflicts, c.acked)
    requires problem == PersistFailure(t, mid, mid.ps[c.id].content, c.failure)
    requires IsPruned(mid.ps[c.id := mid.ps[c.id].(state := StateAfter(problem))], w'.ps)
    requires w'.folder == WithSkill(t, mid.folder, mid.ps[c.id].content, problem) && w'.issued == mid.issued
    requires w'.log == mid.log + [Decided(LearnKind(mid.ps[c.id].content), true, Some(c.id), c.member, "", None, None)]
                       + (if c.closeOk then [Closed(|mid.log|, problem.None?)] else [])
    requires w'.file == (if c.saveOk then w'.ps else mid.file)
    requires w'.saved == mid.saved + (if c.saveOk then {w'.ps} else {})
    ensures CallStep(t, others, w, c, w'.ps, w')
  {
    var conflicts := mid.ps[c.id].conflicts;
    CarriedWorld(t, w, c, problem, w'.ps, w');
    assert w.ps[c.id := AcceptedProposal(t, w, c, conflicts)] == mid.ps[c.id := mid.ps[c.id].(state := StateAfter(problem))];
    AcceptStep(t, others, w, c, conflicts, w'.ps, w');
  }

  /** What recording, changing, saving and closing leave. */
  predicate Settling(w: World, entry: Entry, id: Id, p: Proposal, closeOk: bool, saveOk: bool, kept: Proposals, w': World) {
    var w1 := SavedWorld(Noted(w, entry), saveOk, kept);
    && IsPruned(w.ps[id := p], kept)
    && w' == (if closeOk then Noted(w1, Closed(|w.log|, true)) else w1).(ps := kept)
  }

  lemma SettleWrites(w: World, entry: Entry, closeOk: bool, saveOk: bool, kept: Proposals)
    ensures AppliedAll(w, [Note(entry)] + SaveIf(saveOk) + CloseIf(closeOk, w.log, true), kept) ==
            var w1 := SavedWorld(Noted(w, entry), saveOk, kept);
            if closeOk then Noted(w1, Closed(|w.log|, true)) else w1
  {
    AppliedConcat(w, [Note(entry)] + SaveIf(saveOk), CloseIf(closeOk, w.log, true), kept);
    NoteThenSave(w, entry, saveOk, kept);
    ClosedIf(SavedWorld(Noted(w, entry), saveOk, kept), closeOk, w.log, true, kept);
  }

  /** A call that records a decision about a proposal, changes it, and saves, is a step. */
  lemma SettleStep(t: Text, others: map<string, string>, w: World, c: Call, entry: Entry, id: Id, p: Proposal,
                   closeOk: bool, saveOk: bool, kept: Proposals, w': World)
    requires !c.Propose? && Settling(w, entry, id, p, closeOk, saveOk, kept, w')
    requires EffectOf(t, others, w, c) ==
             Effect([Note(entry)] + SaveIf(saveOk) + CloseIf(closeOk, w.log, true), w.ps[id := p], true)
    ensures CallStep(t, others, w, c, kept, w')
  {
    SettleWrites(w, entry, closeOk, saveOk, kept);
    EffectIsStep(t, others, w, c, EffectOf(t, others, w, c), kept, w');
  }

  lemma PrunedWithout(ps: Proposals, id: Id, p: Proposal, kept: Proposals)
    requires id !in ps && p.state.Awaiting() && id !in kept && IsPruned(ps[id := p], kept[id := p])
    ensures IsPruned(ps, kept)
  {
    assert DecidedIn(ps[id := p]) == DecidedIn(ps);
    assert DecidedIn(kept[id := p]) == DecidedIn(kept);
    forall i | i in kept ensures i in ps && kept[i] == ps[i] {
      assert i in kept[id := p];
    }
    forall i | i in ps && ps[i].state.Awaiting() ensures i in kept {
      assert i in ps[id := p];
    }
    forall a, b | a in DecidedIn(ps) && a !in kept && b in DecidedIn(kept) ensures a in ps && b in ps && Older(ps, a, b) {
      assert a in DecidedIn(ps[id := p]) && b in DecidedIn(kept[id := p]);
    }
  }
}
