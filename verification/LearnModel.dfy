/** Proposals, the decision log, and what each call of the learner does (`agent-learn/src/learner.rs`),
    as values. */
module LearnModel {
  import opened Wrappers

  const MAX_PENDING := 256
  const MAX_KEPT_DECIDED := 512
  const MAX_RECONCILE_RECORDS := 200000
  const MAX_KNOWN_MEMORY_ID := 128

  type Id = nat

  /** What a conflict names: `skill:<source>/<name>`, `memory:<id>` or `proposal:<id>`. */
  datatype Ref = SkillRef(source: string, name: string) | MemoryRef(known: string) | ProposalRef(id: Id)

  datatype ConflictKind = SameNameSkill | ShadowsSkill | PendingProposal | Contradiction

  datatype Conflict = Conflict(kind: ConflictKind, existing: Ref) {
    predicate Blocking() {
      kind == SameNameSkill
    }
  }

  datatype Content = Skill(md: string) | Memory(key: string, value: string)

  datatype ProposalState =
    | Proposed
    | Rejected(member: string, reason: string)
    | PersistFailed(why: string)
    | Persisted
    | PublishPrepared
    | Retracted(member: string, kept: Ref)
  {
    predicate Awaiting() {
      Proposed? || PersistFailed?
    }
  }

  datatype Proposal = Proposal(
    content: Content, created: nat, conflicts: set<Conflict>, state: ProposalState, setAside: set<string>)

  type Proposals = map<Id, Proposal>

  /** A memory core holds that was not learned here. */
  datatype Known = Known(id: string, key: string, value: string)

  /** The text functions the learner uses: `norm_key`, `collapse`, `trim`, whether a memory's key and value
      are acceptable, and the name in a SKILL.md if it is a valid one. Nothing depends on what they compute. */
  datatype Text = Text(
    norm: string -> string, collapse: string -> string, trim: string -> string,
    memoryOk: (string, string) -> bool, nameOf: string -> Option<string>)

  // ----- The decision log --------------------------------------------------------------------------------

  datatype Kind = LearnSkill | LearnMemory | Publish | Resolve

  /** A decision, with what its evidence names, or the outcome of an earlier one. */
  datatype Entry =
    | Decided(kind: Kind, approved: bool, about: Option<Id>, actor: string, reason: string,
              kept: Option<Ref>, aside: Option<string>)
    | Closed(decision: nat, completed: bool)

  type Log = seq<Entry>

  /** `memory:<id>` of a known memory: 1 to 128 printable characters without spaces. */
  predicate ValidKnown(id: string) {
    0 < |id| <= MAX_KNOWN_MEMORY_ID && forall i :: 0 <= i < |id| ==> '!' <= id[i] <= '~'
  }

  /** A recorded choice of a learned memory over a known one. */
  predicate SetsAside(e: Entry) {
    e.Decided? && e.kind == Resolve && e.approved && e.aside.Some? && e.kept.Some?
  }

  predicate About(e: Entry, id: Id) {
    e.Decided? && !SetsAside(e) && e.about == Some(id)
  }

  /** Where the last decision about `id` stands, not before `from`. */
  function Latest(log: Log, from: nat, id: Id): (i: Option<nat>)
    ensures i.Some? ==> from <= i.value < |log| && About(log[i.value], id)
    ensures i.Some? ==> forall j :: i.value < j < |log| ==> !About(log[j], id)
    ensures i.None? ==> forall j :: from <= j < |log| ==> !About(log[j], id)
  {
    if |log| <= from then None
    else if About(log[|log| - 1], id) then Some(|log| - 1)
    else Latest(log[..|log| - 1], from, id)
  }

  /** Whether the last outcome recorded for a decision says it was completed. */
  function CompletedIn(log: Log, from: nat, decision: nat): (b: bool) {
    if |log| <= from then false
    else if log[|log| - 1].Closed? && log[|log| - 1].decision == decision then log[|log| - 1].completed
    else CompletedIn(log[..|log| - 1], from, decision)
  }

  /** The first record that reconciling reads. */
  function PageStart(log: Log): (from: nat) {
    if |log| <= MAX_RECONCILE_RECORDS then 0 else |log| - MAX_RECONCILE_RECORDS
  }

  // ----- Reconciling with the log -------------------------------------------------------------------------

  /** The skill's folder holds exactly the proposal's content. */
  predicate OnDisk(t: Text, content: Content, folder: map<string, string>) {
    && content.Skill? && t.nameOf(content.md).Some?
    && t.nameOf(content.md).value in folder && folder[t.nameOf(content.md).value] == content.md
  }

  const RESTARTED := "an accept was recorded but did not complete before a restart"

  const ACCEPT_AGAIN := "accepted before a restart; accept again so the app receives the memory"

  /** The state the latest decision moves a proposal to, if any. */
  function NextState(t: Text, p: Proposal, e: Entry, completed: bool, folder: map<string, string>)
    : (r: Option<ProposalState>)
    requires e.Decided?
  {
    match e.kind
    case LearnSkill =>
      if !e.approved then (if p.state.Awaiting() then Some(Rejected(e.actor, e.reason)) else None)
      else if p.state.Proposed? then
        Some(if completed && OnDisk(t, p.content, folder) then Persisted else PersistFailed(RESTARTED))
      else None
    case LearnMemory =>
      if !e.approved then (if p.state.Awaiting() then Some(Rejected(e.actor, e.reason)) else None)
      else if p.state.Proposed? then Some(PersistFailed(ACCEPT_AGAIN))
      else None
    case Publish =>
      if e.approved && p.state.Persisted? then Some(PublishPrepared) else None
    case Resolve =>
      if e.approved && (p.state.Awaiting() || p.state.Persisted?) && p.content.Memory? && e.kept.Some? then
        Some(Retracted(e.actor, e.kept.value))
      else None
  }

  function MovedState(t: Text, p: Proposal, id: Id, log: Log, folder: map<string, string>): (st: ProposalState) {
    var from := PageStart(log);
    match Latest(log, from, id)
    case None => p.state
    case Some(i) =>
      match NextState(t, p, log[i], CompletedIn(log, from, i), folder)
      case None => p.state
      case Some(st) => st
  }

  /** The known memories the log sets aside in favour of the proposal. */
  function SetAsides(log: Log, from: nat, id: Id): (xs: set<string>) {
    if |log| <= from then {} else
      var e, xs := log[|log| - 1], SetAsides(log[..|log| - 1], from, id);
      if SetsAside(e) && e.kept.value == ProposalRef(id) && ValidKnown(e.aside.value) then xs + {e.aside.value} else xs
  }

  function Reconciled(t: Text, p: Proposal, id: Id, log: Log, folder: map<string, string>): (r: Proposal) {
    var asides := if p.content.Memory? then SetAsides(log, PageStart(log), id) else {};
    p.(state := MovedState(t, p, id, log, folder), setAside := p.setAside + asides)
  }

  function Reconcile(t: Text, ps: Proposals, log: Log, folder: map<string, string>): (r: Proposals) {
    map id | id in ps :: Reconciled(t, ps[id], id, log, folder)
  }

  // ----- Conflicts --------------------------------------------------------------------------------------------

  /** Counted as a memory the member has accepted. */
  predicate Accepted(p: Proposal) {
    p.state.Persisted? || (p.content.Memory? && p.state.PersistFailed?)
  }

  predicate SameKey(t: Text, a: string, b: string) {
    t.norm(a) == t.norm(b)
  }

  predicate SameValue(t: Text, a: string, b: string) {
    t.collapse(a) == t.collapse(b)
  }

  /** Another memory proposal on the same key that still counts. */
  predicate Rival(t: Text, ps: Proposals, key: string, exclude: Option<Id>, id: Id) {
    && id in ps && exclude != Some(id) && ps[id].content.Memory?
    && (Accepted(ps[id]) || ps[id].state.Awaiting())
    && SameKey(t, ps[id].content.key, key)
  }

  predicate KnownSays(t: Text, key: string, value: string, known: seq<Known>) {
    exists i :: 0 <= i < |known| && SameKey(t, known[i].key, key) && SameValue(t, known[i].value, value)
  }

  predicate RivalSays(t: Text, ps: Proposals, key: string, value: string, exclude: Option<Id>) {
    exists id :: id in ps && Rival(t, ps, key, exclude, id) && SameValue(t, ps[id].content.value, value)
  }

  /** The memory is there already. */
  predicate MemoryKnown(t: Text, ps: Proposals, key: string, value: string, known: seq<Known>, exclude: Option<Id>) {
    KnownSays(t, key, value, known) || RivalSays(t, ps, key, value, exclude)
  }

  function MemoryConflict(ps: Proposals, id: Id): (c: Conflict)
    requires id in ps
  {
    Conflict(if Accepted(ps[id]) then Contradiction else PendingProposal, ProposalRef(id))
  }

  function KnownConflicts(t: Text, key: string, known: seq<Known>): (cs: set<Conflict>) {
    set i | 0 <= i < |known| && SameKey(t, known[i].key, key) :: Conflict(Contradiction, MemoryRef(known[i].id))
  }

  function RivalConflicts(t: Text, ps: Proposals, key: string, exclude: Option<Id>): (cs: set<Conflict>) {
    set id | id in ps && Rival(t, ps, key, exclude, id) :: MemoryConflict(ps, id)
  }

  function MemoryConflicts(t: Text, ps: Proposals, key: string, known: seq<Known>, exclude: Option<Id>): (cs: set<Conflict>) {
    KnownConflicts(t, key, known) + RivalConflicts(t, ps, key, exclude)
  }

  /** Another pending proposal for the skill name. */
  predicate SkillRival(t: Text, ps: Proposals, name: string, exclude: Option<Id>, id: Id) {
    && id in ps && exclude != Some(id) && ps[id].content.Skill? && ps[id].state.Awaiting()
    && t.nameOf(ps[id].content.md) == Some(name)
  }

  predicate SkillRivalIs(t: Text, ps: Proposals, name: string, md: string, exclude: Option<Id>) {
    exists id :: id in ps && SkillRival(t, ps, name, exclude, id) && ps[id].content.md == md
  }

  function SkillRivals(t: Text, ps: Proposals, name: string, exclude: Option<Id>): (cs: set<Conflict>) {
    set id | id in ps && SkillRival(t, ps, name, exclude, id) :: Conflict(PendingProposal, ProposalRef(id))
  }

  predicate SkillKnown(
      t: Text, ps: Proposals, folder: map<string, string>, name: string, md: string, exclude: Option<Id>)
  {
    || (name in folder && folder[name] == md)
    || SkillRivalIs(t, ps, name, md, exclude)
  }

  /** `others` are the skills of the other sources. */
  function SkillConflicts(
      t: Text, ps: Proposals, folder: map<string, string>, others: map<string, string>, name: string,
      exclude: Option<Id>)
    : (cs: set<Conflict>)
  {
    (if name in folder then {Conflict(SameNameSkill, SkillRef("user", name))} else {})
    + (if name in others then {Conflict(ShadowsSkill, SkillRef(others[name], name))} else {})
    + SkillRivals(t, ps, name, exclude)
  }

  // ----- Saving -------------------------------------------------------------------------------------------------

  predicate Older(ps: Proposals, a: Id, b: Id)
    requires a in ps && b in ps
  {
    ps[a].created < ps[b].created || (ps[a].created == ps[b].created && a < b)
  }

  function DecidedIn(ps: Proposals): (ids: set<Id>) {
    set id | id in ps && !ps[id].state.Awaiting()
  }

  /** `kept` is `ps` without its oldest decided proposals beyond the limit. */
  predicate IsPruned(ps: Proposals, kept: Proposals) {
    && (forall id :: id in kept ==> id in ps && kept[id] == ps[id])
    && (forall id :: id in ps && ps[id].state.Awaiting() ==> id in kept)
    && (forall a, b :: a in DecidedIn(ps) && a !in kept && b in DecidedIn(kept) ==> a in ps && b in ps && Older(ps, a, b))
    && |DecidedIn(kept)| == if |DecidedIn(ps)| <= MAX_KEPT_DECIDED then |DecidedIn(ps)| else MAX_KEPT_DECIDED
  }
}
