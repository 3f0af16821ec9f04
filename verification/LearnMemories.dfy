/** What core already knows is never lost. */
module LearnMemories {
  // It is told to the learner when a memory is proposed. Through calls, crashes and reopenings, a known memory
  // that says something else about the same key has to be acknowledged before the new one is kept, and its
  // record names it.

  import opened Wrappers
  import opened LearnModel
  import opened LearnCalls
  import opened LearnRuns
  import opened LearnSteps
  import opened LearnFinality
  import opened Learner

  /** Core holds a memory `known` about the key. */
  ghost predicate Holds(t: Text, memories: seq<Known>, key: string, known: string) {
    exists i: nat :: i < |memories| && memories[i].id == known && t.norm(memories[i].key) == t.norm(t.trim(key))
  }

  /** Core holds a memory that says just this. */
  ghost predicate HoldsTheSame(t: Text, memories: seq<Known>, key: string, value: string) {
    exists i: nat :: i < |memories| && t.norm(memories[i].key) == t.norm(t.trim(key))
                     && t.collapse(memories[i].value) == t.collapse(t.trim(value))
  }

  /** Where the proposal is kept, it says that it contradicts the memory `known`. */
  predicate Warned(ps: Proposals, id: Id, known: string) {
    id in ps ==> ps[id].content.Memory? && Conflict(Contradiction, MemoryRef(known)) in ps[id].conflicts
  }

  /** In memory, and in every file ever saved. */
  ghost predicate Everywhere(w: World, id: Id, known: string) {
    id in w.issued && Warned(w.ps, id, known) && forall s :: s in w.saved ==> Warned(s, id, known)
  }

  /** What core holds already is refused. */
  lemma KnownIsRefused(t: Text, others: map<string, string>, w: World, c: Call)
    requires c.Propose? && c.content.Memory? && HoldsTheSame(t, c.memories, c.content.key, c.content.value)
    ensures EffectOf(t, others, w, c) == Nothing(w)
  {
    var i: nat :| i < |c.memories| && t.norm(c.memories[i].key) == t.norm(t.trim(c.content.key))
                  && t.collapse(c.memories[i].value) == t.collapse(t.trim(c.content.value));
    assert KnownSays(t, t.trim(c.content.key), t.trim(c.content.value), c.memories);
  }

  lemma ProposeWarns(t: Text, others: map<string, string>, w: World, c: Call, known: string)
    requires c.Propose? && c.content.Memory? && c.id !in w.ps && Holds(t, c.memories, c.content.key, known)
    ensures Warned(EffectOf(t, others, w, c).after, c.id, known)
  {
    var i: nat :| i < |c.memories| && c.memories[i].id == known && t.norm(c.memories[i].key) == t.norm(t.trim(c.content.key));
    var x := Conflict(Contradiction, MemoryRef(known));
    assert x in KnownConflicts(t, t.trim(c.content.key), c.memories);
    assert x in MemoryConflicts(t, w.ps, t.trim(c.content.key), c.memories, None);
  }

  /** No proposal is mistaken for the known memory, so looking again keeps the contradiction. */
  lemma FreshKeepsWarning(t: Text, others: map<string, string>, w: World, id: Id, known: string)
    requires id in w.ps && Warned(w.ps, id, known) && FreshConflicts(t, others, w, id).Some?
    ensures Conflict(Contradiction, MemoryRef(known)) in FreshConflicts(t, others, w, id).value
  {
    forall y | y in MemoryConflicts(t, w.ps, w.ps[id].content.key, [], Some(id)) ensures y.existing != MemoryRef(known) {
    }
  }

  lemma CallKeepsWarning(t: Text, others: map<string, string>, w: World, c: Call, id: Id, known: string)
    requires Warned(w.ps, id, known) && (c.Propose? ==> c.id != id)
    ensures Warned(EffectOf(t, others, w, c).after, id, known)
  {
    if c.Accept? && c.id == id && id in w.ps && FreshConflicts(t, others, w, id).Some? {
      FreshKeepsWarning(t, others, w, id, known);
    }
  }

  lemma ReopenKeepsWarning(t: Text, w: World, snapshot: Proposals, kept: Proposals, w': World, id: Id, known: string)
    requires (forall s :: s in w.saved ==> Warned(s, id, known)) && id in w.issued && Reopened(t, w, snapshot, kept, w')
    ensures Everywhere(w', id, known)
  {
    var ps := Reconcile(t, snapshot, w.log, w.folder);
    assert Warned(snapshot, id, known);
    if id in ps {
      assert ps[id] == Reconciled(t, snapshot[id], id, w.log, w.folder);
    }
    assert Warned(ps, id, known);
  }

  /** Once what a call leaves is warned, so is everything it writes and everything it leaves when cut short. */
  lemma WritesKeepWarning(
      t: Text, others: map<string, string>, w: World, ev: Event, kept: Proposals, kept1: Proposals, w': World,
      id: Id, known: string)
    requires Step(t, others, w, ev, kept, kept1, w') && !ev.MemberEdits? && id in w'.issued
    requires forall s :: s in w.saved ==> Warned(s, id, known)
    requires Warned(EffectOf(t, others, w, ev.call).after, id, known)
    ensures Everywhere(w', id, known)
  {
    var e := EffectOf(t, others, w, ev.call);
    assert Warned(kept, id, known);
    match ev
    case Do(c) => AppliedKeeps(w, e.writes, kept);
    case Die(c, n, snapshot) =>
      AppliedKeeps(w, e.writes[..n], kept);
      ReopenKeepsWarning(t, AppliedAll(w, e.writes[..n], kept).(issued := Issued(w, c, e)), snapshot, kept1, w', id, known);
  }

  lemma StepKeepsWarning(
      t: Text, others: map<string, string>, w: World, ev: Event, kept: Proposals, kept1: Proposals, w': World,
      id: Id, known: string)
    requires Typed(w) && Everywhere(w, id, known) && Step(t, others, w, ev, kept, kept1, w')
    ensures Everywhere(w', id, known)
  {
    StepKeepsTyped(t, others, w, ev, kept, kept1, w');
    if !ev.MemberEdits? {
      CallKeepsWarning(t, others, w, ev.call, id, known);
      WritesKeepWarning(t, others, w, ev, kept, kept1, w', id, known);
    }
  }

  lemma {:induction false} RunKeepsWarning(
      t: Text, others: map<string, string>, w: World, run: seq<Moment>, id: Id, known: string)
    requires Typed(w) && Everywhere(w, id, known) && IsRun(t, others, w, run)
    ensures Everywhere(End(w, run), id, known)
    decreases |run|
  {
    if run != [] {
      var m := run[0];
      StepKeepsTyped(t, others, w, m.ev, m.kept, m.kept1, m.after);
      StepKeepsWarning(t, others, w, m.ev, m.kept, m.kept1, m.after, id, known);
      RunKeepsWarning(t, others, m.after, run[1..], id, known);
      assert End(w, run) == End(m.after, run[1..]);
    }
  }

  /** A memory is proposed while core holds `known` about the same key; the call may be cut short. */
  ghost predicate ProposedBeside(t: Text, m: Moment, id: Id, known: string) {
    && !m.ev.MemberEdits? && m.ev.call.Propose? && m.ev.call.id == id && m.ev.call.content.Memory?
    && Holds(t, m.ev.call.memories, m.ev.call.content.key, known)
    && id in m.after.issued
  }

  lemma ProposalIsWarned(
      t: Text, others: map<string, string>, w: World, m: Moment, id: Id, known: string)
    requires Typed(w) && Step(t, others, w, m.ev, m.kept, m.kept1, m.after) && ProposedBeside(t, m, id, known)
    ensures Everywhere(m.after, id, known)
  {
    ProposeWarns(t, others, w, m.ev.call, known);
    WritesKeepWarning(t, others, w, m.ev, m.kept, m.kept1, m.after, id, known);
  }

  /** What an accept of the proposal can come to in world `w`: it records nothing and leaves the proposal in its
      state, or the member acknowledged the known memory, and the proposal still says it contradicts it. */
  ghost predicate AcceptNames(t: Text, others: map<string, string>, w: World, c: Call, known: string)
    requires c.Accept? && c.id in w.ps
  {
    var e := EffectOf(t, others, w, c);
    && c.id in e.after
    && Conflict(Contradiction, MemoryRef(known)) in e.after[c.id].conflicts
    && (MemoryRef(known) !in c.acked ==> e.writes == [] && e.after[c.id].state == w.ps[c.id].state)
  }

  lemma AcceptNamesKnown(t: Text, others: map<string, string>, w: World, c: Call, known: string)
    requires c.Accept? && c.id in w.ps && Warned(w.ps, c.id, known)
    ensures AcceptNames(t, others, w, c, known)
  {
    CallKeepsWarning(t, others, w, c, c.id, known);
    if FreshConflicts(t, others, w, c.id).Some? {
      FreshKeepsWarning(t, others, w, c.id, known);
    }
  }

  /** What core gets is `Both` and names the known memory, which the member acknowledged. */
  ghost predicate HandedNames(id: Id, known: string, acked: set<Ref>, kept: Kept) {
    && kept.KeptMemory? && kept.record.proposal == id
    && MemoryRef(known) in acked && MemoryRef(known) in kept.record.contradicts && kept.record.belnap == Both
  }

  lemma HandedIsBoth(
      t: Text, others: map<string, string>, w: World, id: Id, acked: set<Ref>, member: string, seqNo: nat, kept: Kept,
      known: string)
    requires id in w.ps && Warned(w.ps, id, known) && Handed(t, others, w, id, acked, member, seqNo, kept)
    ensures HandedNames(id, known, acked, kept)
  {
    FreshKeepsWarning(t, others, w, id, known);
  }

  /** Whoever accepts the proposal in world `w`, and however. */
  ghost predicate EveryAcceptNames(t: Text, others: map<string, string>, w: World, id: Id, known: string)
    requires id in w.ps
  {
    && (forall c: Call :: c.Accept? && c.id == id ==> AcceptNames(t, others, w, c, known))
    && (forall acked, member, seqNo, kept ::
          Handed(t, others, w, id, acked, member, seqNo, kept) ==> HandedNames(id, known, acked, kept))
  }

  lemma WarnedAcceptNames(t: Text, others: map<string, string>, w: World, id: Id, known: string)
    requires id in w.ps && Warned(w.ps, id, known)
    ensures EveryAcceptNames(t, others, w, id, known)
  {
    forall c: Call | c.Accept? && c.id == id ensures AcceptNames(t, others, w, c, known) {
      AcceptNamesKnown(t, others, w, c, known);
    }
    forall acked, member, seqNo, kept | Handed(t, others, w, id, acked, member, seqNo, kept)
      ensures HandedNames(id, known, acked, kept)
    {
      HandedIsBoth(t, others, w, id, acked, member, seqNo, kept, known);
    }
  }

  /** Whatever was called, crashed or reopened before the proposal, and whatever happens between it and an accept:
      without the known memory among the acknowledged ones nothing is accepted, and what is handed to core names
      it and is `Both`. */
  lemma KnownMemoryIsNeverLost(
      t: Text, others: map<string, string>, folder: map<string, string>, before: seq<Moment>, m: Moment,
      later: seq<Moment>, id: Id, known: string)
    requires IsRun(t, others, Start(folder), before)
    requires Step(t, others, End(Start(folder), before), m.ev, m.kept, m.kept1, m.after) && ProposedBeside(t, m, id, known)
    requires IsRun(t, others, m.after, later)
    ensures var w := End(m.after, later);
            id in w.ps ==> EveryAcceptNames(t, others, w, id, known)
  {
    var w0, w := End(Start(folder), before), End(m.after, later);
    EveryRunAgrees(t, others, folder, before);
    StepKeepsTyped(t, others, w0, m.ev, m.kept, m.kept1, m.after);
    ProposalIsWarned(t, others, w0, m, id, known);
    RunKeepsWarning(t, others, m.after, later, id, known);
    if id in w.ps {
      WarnedAcceptNames(t, others, w, id, known);
    }
  }
}
