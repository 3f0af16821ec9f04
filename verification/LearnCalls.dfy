/** What each call of the learner writes, in order, and the proposals it leaves in memory. A crash during
    a call is a prefix of its writes. */
module LearnCalls {
  import opened Wrappers
  import opened LearnModel

  /** Memory and everything that outlives a crash. `saved` are all proposals files ever saved, `file` the
      last of them; `issued` are the proposals ever made. */
  datatype World = World(
    ps: Proposals, log: Log, folder: map<string, string>, file: Proposals, saved: set<Proposals>,
    issued: map<Id, Content>)

  /** The member's calls, with what the surroundings answer: whether the decision could be recorded,
      why a skill could not be written, whether the outcome could be recorded, whether saving worked. */
  datatype Call =
    | Propose(id: Id, content: Content, memories: seq<Known>, now: nat, saveOk: bool)
    | Reject(id: Id, member: string, reason: string, recordOk: bool, saveOk: bool)
    | Accept(id: Id, member: string, acked: set<Ref>, recordOk: bool, failure: Option<string>, closeOk: bool, saveOk: bool)
    | ResolveTwo(keep: Id, retract: Id, member: string, recordOk: bool, closeOk: bool, saveOk: bool)
    | KeepLearned(id: Id, known: string, member: string, recordOk: bool, closeOk: bool, saveOk: bool)
    | KeepKnown(id: Id, known: string, member: string, recordOk: bool, closeOk: bool, saveOk: bool)
    | PreparePublish(id: Id, member: string, paramsOk: bool, recordOk: bool, closeOk: bool, saveOk: bool)

  datatype Write = Note(entry: Entry) | Put(name: string, md: string) | Save

  /** `saves`: the call goes on to save, so old decided proposals are dropped from `after` first. */
  datatype Effect = Effect(writes: seq<Write>, after: Proposals, saves: bool)

  function Nothing(w: World): (e: Effect) {
    Effect([], w.ps, false)
  }

  function SaveIf(ok: bool): (ws: seq<Write>) {
    if ok then [Save] else []
  }

  function CloseIf(ok: bool, log: Log, completed: bool): (ws: seq<Write>) {
    if ok then [Note(Closed(|log|, completed))] else []
  }

  // ----- Each call ------------------------------------------------------------------------------------------

  function PendingIn(ps: Proposals): (ids: set<Id>) {
    set id | id in ps && ps[id].state.Awaiting()
  }

  /** What a proposal is kept as, and its conflicts, or `None` when it is refused. */
  function Admitted(t: Text, others: map<string, string>, w: World, content: Content, known: seq<Known>)
    : (r: Option<(Content, set<Conflict>)>)
  {
    match content
    case Skill(md) =>
      (match t.nameOf(md)
       case None => None
       case Some(name) =>
         if SkillKnown(t, w.ps, w.folder, name, md, None) then None
         else Some((content, SkillConflicts(t, w.ps, w.folder, others, name, None))))
    case Memory(key, value) =>
      if !t.memoryOk(key, value) then None else
        var k, v := t.trim(key), t.trim(value);
        if MemoryKnown(t, w.ps, k, v, known, None) then None
        else Some((Memory(k, v), MemoryConflicts(t, w.ps, k, known, None)))
  }

  function ProposeEffect(t: Text, others: map<string, string>, w: World, c: Call): (e: Effect)
    requires c.Propose?
  {
    if |PendingIn(w.ps)| >= MAX_PENDING then Nothing(w) else
      match Admitted(t, others, w, c.content, c.memories)
      case None => Nothing(w)
      case Some((content, conflicts)) =>
        if c.saveOk then Effect([Save], w.ps[c.id := Proposal(content, c.now, conflicts, Proposed, {})], true)
        else Effect([], w.ps, true)
  }

  function LearnKind(content: Content): (k: Kind) {
    if content.Skill? then LearnSkill else LearnMemory
  }

  function RejectEffect(w: World, c: Call): (e: Effect)
    requires c.Reject?
  {
    if !(c.id in w.ps && w.ps[c.id].state.Awaiting() && c.recordOk) then Nothing(w) else
      var p := w.ps[c.id];
      Effect([Note(Decided(LearnKind(p.content), false, Some(c.id), c.member, c.reason, None, None))] + SaveIf(c.saveOk),
             w.ps[c.id := p.(state := Rejected(c.member, c.reason))], true)
  }

  /** The conflicts an accept must have acknowledged, or `None` when the content is known by now. */
  function FreshConflicts(t: Text, others: map<string, string>, w: World, id: Id): (r: Option<set<Conflict>>)
    requires id in w.ps
  {
    var p := w.ps[id];
    match p.content
    case Skill(md) =>
      var name := if t.nameOf(md).Some? then t.nameOf(md).value else "";
      if SkillKnown(t, w.ps, w.folder, name, md, Some(id)) then None
      else Some(SkillConflicts(t, w.ps, w.folder, others, name, Some(id)))
    case Memory(key, value) =>
      if MemoryKnown(t, w.ps, key, value, [], Some(id)) then None
      else
        var current := MemoryConflicts(t, w.ps, key, [], Some(id));
        Some(current + StillContradicts(p.conflicts, current))
  }

  /** The contradictions found when proposing that the current conflicts do not name. */
  function StillContradicts(stored: set<Conflict>, current: set<Conflict>): (cs: set<Conflict>) {
    set x | x in stored && x.kind == Contradiction && forall y :: y in current ==> y.existing != x.existing
  }

  /** None is blocking, and the member acknowledged them all. */
  predicate Acceptable(conflicts: set<Conflict>, acked: set<Ref>) {
    forall x :: x in conflicts ==> !x.Blocking() && x.existing in acked
  }

  /** Why writing the skill fails, if it does. */
  function PersistFailure(t: Text, w: World, content: Content, failure: Option<string>): (r: Option<string>) {
    match content
    case Memory(_, _) => None
    case Skill(md) =>
      match t.nameOf(md)
      case None => Some("invalid skill")
      case Some(name) => if name in w.folder then Some("appeared in the skills folder") else failure
  }

  function AcceptEffect(t: Text, others: map<string, string>, w: World, c: Call): (e: Effect)
    requires c.Accept?
  {
    if !(c.id in w.ps && w.ps[c.id].state.Awaiting()) then Nothing(w) else
      match FreshConflicts(t, others, w, c.id)
      case None => Nothing(w)
      case Some(conflicts) =>
        var p := w.ps[c.id].(conflicts := conflicts);
        if !Acceptable(conflicts, c.acked) || !c.recordOk then Effect([], w.ps[c.id := p], false) else
          var failure := PersistFailure(t, w, p.content, c.failure);
          Effect([Note(Decided(LearnKind(p.content), true, Some(c.id), c.member, "", None, None))]
                 + (if p.content.Skill? && failure.None? then [Put(t.nameOf(p.content.md).value, p.content.md)] else [])
                 + CloseIf(c.closeOk, w.log, failure.None?) + SaveIf(c.saveOk),
                 w.ps[c.id := p.(state := if failure.None? then Persisted else PersistFailed(failure.value))], true)
  }

  predicate PersistedMemory(ps: Proposals, id: Id) {
    id in ps && ps[id].content.Memory? && ps[id].state.Persisted?
  }

  predicate Contradictory(t: Text, a: Proposal, b: Proposal) {
    && a.content.Memory? && b.content.Memory?
    && SameKey(t, a.content.key, b.content.key) && !SameValue(t, a.content.value, b.content.value)
  }

  function ResolveEffect(t: Text, w: World, c: Call): (e: Effect)
    requires c.ResolveTwo?
  {
    if !(c.keep != c.retract && PersistedMemory(w.ps, c.keep) && PersistedMemory(w.ps, c.retract)
         && Contradictory(t, w.ps[c.keep], w.ps[c.retract]) && c.recordOk) then Nothing(w)
    else
      Effect([Note(Decided(Resolve, true, Some(c.retract), c.member, "", Some(ProposalRef(c.keep)), None))]
             + SaveIf(c.saveOk) + CloseIf(c.closeOk, w.log, true),
             w.ps[c.retract := w.ps[c.retract].(state := Retracted(c.member, ProposalRef(c.keep)))], true)
  }

  /** The known memory was acknowledged as a contradiction, and is not set aside yet. */
  predicate Resolvable(w: World, id: Id, known: string) {
    && ValidKnown(known) && PersistedMemory(w.ps, id)
    && Conflict(Contradiction, MemoryRef(known)) in w.ps[id].conflicts && known !in w.ps[id].setAside
  }

  function KeepLearnedEffect(w: World, c: Call): (e: Effect)
    requires c.KeepLearned?
  {
    if !(Resolvable(w, c.id, c.known) && c.recordOk) then Nothing(w) else
      Effect([Note(Decided(Resolve, true, None, c.member, "", Some(ProposalRef(c.id)), Some(c.known)))]
             + SaveIf(c.saveOk) + CloseIf(c.closeOk, w.log, true),
             w.ps[c.id := w.ps[c.id].(setAside := w.ps[c.id].setAside + {c.known})], true)
  }

  function KeepKnownEffect(w: World, c: Call): (e: Effect)
    requires c.KeepKnown?
  {
    if !(Resolvable(w, c.id, c.known) && c.recordOk) then Nothing(w) else
      Effect([Note(Decided(Resolve, true, Some(c.id), c.member, "", Some(MemoryRef(c.known)), None))]
             + SaveIf(c.saveOk) + CloseIf(c.closeOk, w.log, true),
             w.ps[c.id := w.ps[c.id].(state := Retracted(c.member, MemoryRef(c.known)))], true)
  }

  function PublishEffect(t: Text, w: World, c: Call): (e: Effect)
    requires c.PreparePublish?
  {
    if !(c.id in w.ps && w.ps[c.id].content.Skill? && (w.ps[c.id].state.Persisted? || w.ps[c.id].state.PublishPrepared?)
         && c.paramsOk && OnDisk(t, w.ps[c.id].content, w.folder) && c.recordOk) then Nothing(w)
    else
      Effect([Note(Decided(Publish, true, Some(c.id), c.member, "", None, None))]
             + SaveIf(c.saveOk) + CloseIf(c.closeOk, w.log, true),
             w.ps[c.id := w.ps[c.id].(state := PublishPrepared)], true)
  }

  function EffectOf(t: Text, others: map<string, string>, w: World, c: Call): (e: Effect) {
    match c
    case Propose(_, _, _, _, _) => ProposeEffect(t, others, w, c)
    case Reject(_, _, _, _, _) => RejectEffect(w, c)
    case Accept(_, _, _, _, _, _, _) => AcceptEffect(t, others, w, c)
    case ResolveTwo(_, _, _, _, _, _) => ResolveEffect(t, w, c)
    case KeepLearned(_, _, _, _, _, _) => KeepLearnedEffect(w, c)
    case KeepKnown(_, _, _, _, _, _) => KeepKnownEffect(w, c)
    case PreparePublish(_, _, _, _, _, _) => PublishEffect(t, w, c)
  }

  // ----- Runs -----------------------------------------------------------------------------------------------------

  /** One write reaches the disk. `kept` are the proposals being saved. */
  function Applied(w: World, write: Write, kept: Proposals): (r: World) {
    match write
    case Note(entry) => w.(log := w.log + [entry])
    case Put(name, md) => w.(folder := w.folder[name := md])
    case Save => w.(file := kept, saved := w.saved + {kept})
  }

  function AppliedAll(w: World, writes: seq<Write>, kept: Proposals): (r: World) {
    if writes == [] then w else Applied(AppliedAll(w, writes[..|writes| - 1], kept), writes[|writes| - 1], kept)
  }

  function Issued(w: World, c: Call, e: Effect): (r: map<Id, Content>) {
    if c.Propose? && c.id in e.after && c.id !in w.ps then w.issued[c.id := e.after[c.id].content] else w.issued
  }

  /** Opens the learner on one of the proposals files: the log is reconciled, and the result saved if
      anything moved. */
  predicate Reopened(t: Text, w: World, snapshot: Proposals, kept: Proposals, w': World) {
    var ps := Reconcile(t, snapshot, w.log, w.folder);
    && snapshot in w.saved
    && if ps == snapshot then w' == w.(ps := snapshot)
       else IsPruned(ps, kept) && w' == w.(ps := kept, file := kept, saved := w.saved + {kept})
  }

  datatype Event =
    | Do(call: Call)
    | Die(call: Call, writes: nat, snapshot: Proposals)
    | MemberEdits(folder: map<string, string>)

  /** A proposal's id was never used before. */
  predicate FreshIds(w: World, c: Call) {
    c.Propose? ==> c.id !in w.issued
  }

  /** One event; `kept` and `kept1` are what pruning leaves when it runs. */
  predicate Step(t: Text, others: map<string, string>, w: World, ev: Event, kept: Proposals, kept1: Proposals, w': World) {
    match ev
    case MemberEdits(folder) => w' == w.(folder := folder)
    case Do(c) =>
      var e := EffectOf(t, others, w, c);
      && FreshIds(w, c) && (if e.saves then IsPruned(e.after, kept) else kept == e.after)
      && w' == AppliedAll(w, e.writes, kept).(ps := kept, issued := Issued(w, c, e))
    case Die(c, n, snapshot) =>
      var e := EffectOf(t, others, w, c);
      && FreshIds(w, c) && n <= |e.writes| && (if e.saves then IsPruned(e.after, kept) else kept == e.after)
      && Reopened(t, AppliedAll(w, e.writes[..n], kept).(issued := Issued(w, c, e)), snapshot, kept1, w')
  }
}
