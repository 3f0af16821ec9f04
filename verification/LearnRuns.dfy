/** What holds in every run of the learner, crashes included. */
module LearnRuns {
  import opened Wrappers
  import opened LearnModel
  import opened LearnCalls

  // ----- Reconciling -----------------------------------------------------------------------------------

  lemma MovedOnce(t: Text, p: Proposal, q: Proposal, id: Id, log: Log, folder: map<string, string>)
    requires q.content == p.content && q.state == MovedState(t, p, id, log, folder)
    ensures MovedState(t, q, id, log, folder) == q.state
  {
  }

  lemma ReconciledOnce(t: Text, p: Proposal, id: Id, log: Log, folder: map<string, string>)
    ensures var q := Reconciled(t, p, id, log, folder); Reconciled(t, q, id, log, folder) == q
  {
    var q := Reconciled(t, p, id, log, folder);
    MovedOnce(t, p, q, id, log, folder);
    assert p.content.Memory? ==> q.setAside + SetAsides(log, PageStart(log), id) == q.setAside;
    assert q.setAside + {} == q.setAside;
  }

  /** Reconciling twice moves nothing the second time, whatever the file, the log and the folder say. */
  lemma ReconcileIsIdempotent(t: Text, ps: Proposals, log: Log, folder: map<string, string>)
    ensures Reconcile(t, Reconcile(t, ps, log, folder), log, folder) == Reconcile(t, ps, log, folder)
  {
    forall id | id in ps
      ensures var q := Reconciled(t, ps[id], id, log, folder); Reconciled(t, q, id, log, folder) == q
    {
      ReconciledOnce(t, ps[id], id, log, folder);
    }
  }

  /** Exactly when a proposal can still be accepted after reconciling: it could before, and the latest
      decision about it is not one that settles it. */
  lemma AwaitingAfterReconcile(t: Text, p: Proposal, id: Id, log: Log, folder: map<string, string>)
    ensures var from := PageStart(log);
            Reconciled(t, p, id, log, folder).state.Awaiting() <==>
              && p.state.Awaiting()
              && match Latest(log, from, id)
                 case None => true
                 case Some(i) =>
                   match log[i].kind
                   case LearnSkill =>
                     log[i].approved && !(p.state.Proposed? && CompletedIn(log, from, i) && OnDisk(t, p.content, folder))
                   case LearnMemory => log[i].approved
                   case Publish => true
                   case Resolve => !(log[i].approved && p.content.Memory? && log[i].kept.Some?)
  {
  }

  // ----- Contradictions between accepted memories ----------------------------------------------------------------

  /** `p` acknowledged that it contradicts the proposal `id`. */
  predicate Records(p: Proposal, id: Id) {
    Conflict(Contradiction, ProposalRef(id)) in p.conflicts
  }

  ghost predicate Acknowledged(t: Text, ps: Proposals, a: Id, b: Id)
    requires a in ps && b in ps && ps[a].content.Memory? && ps[b].content.Memory?
  {
    SameKey(t, ps[a].content.key, ps[b].content.key) ==>
      !SameValue(t, ps[a].content.value, ps[b].content.value) && (Records(ps[a], b) || Records(ps[b], a))
  }

  /** Two persisted memories on one key differ in value, and one of them records the other. */
  ghost predicate MemoriesAgree(t: Text, ps: Proposals) {
    forall a, b :: PersistedMemory(ps, a) && PersistedMemory(ps, b) && a != b ==> Acknowledged(t, ps, a, b)
  }

  /** `after` differs from `ps` in no way that matters to the memories that are persisted. */
  ghost predicate NoNewMemories(ps: Proposals, after: Proposals) {
    forall id :: PersistedMemory(after, id) ==>
      PersistedMemory(ps, id) && after[id].content == ps[id].content && after[id].conflicts == ps[id].conflicts
  }

  lemma NoNewMemoriesAgree(t: Text, ps: Proposals, after: Proposals)
    requires MemoriesAgree(t, ps) && NoNewMemories(ps, after)
    ensures MemoriesAgree(t, after)
  {
    forall a, b | PersistedMemory(after, a) && PersistedMemory(after, b) && a != b ensures Acknowledged(t, after, a, b) {
      assert Acknowledged(t, ps, a, b);
    }
  }

  lemma PrunedAgree(t: Text, ps: Proposals, kept: Proposals)
    requires MemoriesAgree(t, ps) && IsPruned(ps, kept)
    ensures MemoriesAgree(t, kept)
  {
    NoNewMemoriesAgree(t, ps, kept);
  }

  /** An accepted memory has met every persisted memory on its key: none says the same, and each is among
      the conflicts the member acknowledged. */
  lemma AcceptMeetsEveryRival(t: Text, others: map<string, string>, w: World, id: Id, b: Id)
    requires id in w.ps && w.ps[id].content.Memory? && FreshConflicts(t, others, w, id).Some?
    requires PersistedMemory(w.ps, b) && b != id && SameKey(t, w.ps[b].content.key, w.ps[id].content.key)
    ensures !SameValue(t, w.ps[b].content.value, w.ps[id].content.value)
    ensures Conflict(Contradiction, ProposalRef(b)) in FreshConflicts(t, others, w, id).value
  {
    assert Rival(t, w.ps, w.ps[id].content.key, Some(id), b);
    assert MemoryConflict(w.ps, b) == Conflict(Contradiction, ProposalRef(b));
  }

  lemma AcceptAgrees(t: Text, others: map<string, string>, w: World, c: Call)
    requires c.Accept? && MemoriesAgree(t, w.ps)
    ensures MemoriesAgree(t, AcceptEffect(t, others, w, c).after)
  {
    var after := AcceptEffect(t, others, w, c).after;
    if c.id in w.ps && PersistedMemory(after, c.id) && after[c.id] != w.ps[c.id] && FreshConflicts(t, others, w, c.id).Some? {
      forall a, b | PersistedMemory(after, a) && PersistedMemory(after, b) && a != b ensures Acknowledged(t, after, a, b) {
        if a == c.id && SameKey(t, after[a].content.key, after[b].content.key) {
          AcceptMeetsEveryRival(t, others, w, a, b);
        } else if b == c.id && SameKey(t, after[a].content.key, after[b].content.key) {
          AcceptMeetsEveryRival(t, others, w, b, a);
        } else if a != c.id && b != c.id {
          assert Acknowledged(t, w.ps, a, b);
        }
      }
    } else {
      NoNewMemoriesAgree(t, w.ps, after);
    }
  }

  lemma CallAgrees(t: Text, others: map<string, string>, w: World, c: Call)
    requires MemoriesAgree(t, w.ps) && (c.Propose? ==> c.id !in w.ps)
    ensures MemoriesAgree(t, EffectOf(t, others, w, c).after)
  {
    if c.Accept? {
      AcceptAgrees(t, others, w, c);
    } else {
      NoNewMemoriesAgree(t, w.ps, EffectOf(t, others, w, c).after);
    }
  }

  lemma ReconcileAgrees(t: Text, ps: Proposals, log: Log, folder: map<string, string>)
    requires MemoriesAgree(t, ps)
    ensures MemoriesAgree(t, Reconcile(t, ps, log, folder))
  {
    var after := Reconcile(t, ps, log, folder);
    forall id | PersistedMemory(after, id)
      ensures PersistedMemory(ps, id) && after[id].content == ps[id].content && after[id].conflicts == ps[id].conflicts
    {
      assert after[id] == Reconciled(t, ps[id], id, log, folder);
    }
    NoNewMemoriesAgree(t, ps, after);
  }

  /** In memory, and in every file ever saved. */
  ghost predicate AllAgree(t: Text, w: World) {
    MemoriesAgree(t, w.ps) && forall s :: s in w.saved ==> MemoriesAgree(t, s)
  }

  lemma {:induction false} AppliedKeeps(w: World, writes: seq<Write>, kept: Proposals)
    ensures var r := AppliedAll(w, writes, kept);
            && r.ps == w.ps && r.issued == w.issued
            && w.saved <= r.saved <= w.saved + {kept}
            && (r.file == w.file || r.file == kept)
            && w.log <= r.log
    decreases |writes|
  {
    if writes != [] {
      AppliedKeeps(w, writes[..|writes| - 1], kept);
    }
  }

  lemma ReopenAgrees(t: Text, w: World, snapshot: Proposals, kept: Proposals, w': World)
    requires (forall s :: s in w.saved ==> MemoriesAgree(t, s)) && Reopened(t, w, snapshot, kept, w')
    ensures AllAgree(t, w')
  {
    ReconcileAgrees(t, snapshot, w.log, w.folder);
    var ps := Reconcile(t, snapshot, w.log, w.folder);
    if ps != snapshot {
      PrunedAgree(t, ps, kept);
    }
  }

  lemma WritesAgree(t: Text, others: map<string, string>, w: World, c: Call, n: nat, kept: Proposals)
    requires AllAgree(t, w) && (c.Propose? ==> c.id !in w.ps)
    requires var e := EffectOf(t, others, w, c);
             n <= |e.writes| && if e.saves then IsPruned(e.after, kept) else kept == e.after
    ensures MemoriesAgree(t, kept)
    ensures forall s :: s in AppliedAll(w, EffectOf(t, others, w, c).writes[..n], kept).saved ==> MemoriesAgree(t, s)
  {
    var e := EffectOf(t, others, w, c);
    CallAgrees(t, others, w, c);
    if e.saves {
      PrunedAgree(t, e.after, kept);
    }
    AppliedKeeps(w, e.writes[..n], kept);
  }

  /** In every reachable state, after crashes and on any proposals file ever saved, two persisted memories on
      one key have different values and one of them records the other as an acknowledged contradiction. */
  lemma StepKeepsAgreement(
      t: Text, others: map<string, string>, w: World, ev: Event, kept: Proposals, kept1: Proposals, w': World)
    requires AllAgree(t, w) && w.ps.Keys <= w.issued.Keys && Step(t, others, w, ev, kept, kept1, w')
    ensures AllAgree(t, w')
  {
    match ev
    case MemberEdits(_) =>
    case Do(c) =>
      var writes := EffectOf(t, others, w, c).writes;
      assert writes[..|writes|] == writes;
      WritesAgree(t, others, w, c, |writes|, kept);
    case Die(c, n, snapshot) =>
      var e := EffectOf(t, others, w, c);
      WritesAgree(t, others, w, c, n, kept);
      ReopenAgrees(t, AppliedAll(w, e.writes[..n], kept).(issued := Issued(w, c, e)), snapshot, kept1, w');
  }
}
