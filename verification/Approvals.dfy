/** The member's decisions on browser actions (`agent-browser/src/approvals.rs`). */
module Approvals {
  // One slot is shared by requesters that wait, members that decide, and stops. Each holding of the lock
  // is one step.

  import opened Wrappers

  type Id = nat

  datatype Decision = Allowed | Stopped | Declined | SessionStopped | TimedOut

  /** What a waiting requester keeps in its own variables. */
  datatype Ticket = Ticket(id: Id, epoch: nat)

  /** What the lock protects. */
  datatype Slot = Slot(next: nat, pending: Option<Id>, answer: Option<(Id, bool)>, epoch: nat)

  const EMPTY := Slot(0, None, None, 0)

  // ----- Single steps -------------------------------------------------------------------------------------

  /** Takes the slot, unless another action is waiting. */
  function Begun(s: Slot): (r: (Slot, Option<Ticket>)) {
    if s.pending.Some? then (s, None)
    else (Slot(s.next + 1, Some(s.next + 1), None, s.epoch), Some(Ticket(s.next + 1, s.epoch)))
  }

  /** How the wait ends if it ends now. */
  function Verdict(s: Slot, t: Ticket, stopped: bool, late: bool): (d: Option<Decision>) {
    if s.epoch != t.epoch then Some(Stopped)
    else if s.answer.Some? && s.answer.value.0 == t.id then Some(if s.answer.value.1 then Allowed else Declined)
    else if stopped then Some(SessionStopped)
    else if late then Some(TimedOut)
    else None
  }

  /** Leaving: the slot is freed if it is still the requester's, and the answer is cleared in any case. */
  function Left(s: Slot, t: Ticket): (r: Slot) {
    s.(pending := if s.pending == Some(t.id) then None else s.pending, answer := None)
  }

  function Decided(s: Slot, id: Id, allow: bool): (r: (Slot, bool)) {
    if s.pending == Some(id) then (s.(answer := Some((id, allow))), true) else (s, false)
  }

  function DeniedAll(s: Slot): (r: Slot) {
    s.(epoch := s.epoch + 1, pending := None)
  }

  /** The decision queue. */
  class ActionApprovals {
    var next: nat
    var pending: Option<Id>
    var answer: Option<(Id, bool)>
    var epoch: nat

    constructor ()
      ensures View() == EMPTY
    {
      next, pending, answer, epoch := 0, None, None, 0;
    }

    function View(): (s: Slot)
      reads this
    {
      Slot(next, pending, answer, epoch)
    }

    /** The first holding of the lock in `request`. */
    method Begin() returns (t: Option<Ticket>)
      modifies this
      ensures (View(), t) == Begun(old(View()))
    {
      if pending.Some? {
        return None;
      }
      next := next + 1;
      pending := Some(next);
      answer := None;
      return Some(Ticket(next, epoch));
    }

    /** One round of the waiting loop; when it ends, the slot is left. */
    method Poll(t: Ticket, stopped: bool, late: bool) returns (d: Option<Decision>)
      modifies this
      ensures d == Verdict(old(View()), t, stopped, late)
      ensures View() == if d.Some? then Left(old(View()), t) else old(View())
    {
      d := None;
      if epoch != t.epoch {
        d := Some(Stopped);
      } else if answer.Some? && answer.value.0 == t.id {
        d := Some(if answer.value.1 then Allowed else Declined);
      } else if stopped {
        d := Some(SessionStopped);
      } else if late {
        d := Some(TimedOut);
      }
      if d.Some? {
        if pending == Some(t.id) {
          pending := None;
        }
        answer := None;
      }
    }

    /** The member's decision on the pending action. */
    method Decide(id: Id, allow: bool) returns (accepted: bool)
      modifies this
      ensures (View(), accepted) == Decided(old(View()), id, allow)
    {
      accepted := pending == Some(id);
      if accepted {
        answer := Some((id, allow));
      }
    }

    /** Denies whatever is waiting. */
    method DenyAll()
      modifies this
      ensures View() == DeniedAll(old(View()))
    {
      epoch := epoch + 1;
      pending := None;
    }
  }

  // ----- Interleavings -------------------------------------------------------------------------------------

  type Thread = nat

  datatype Act =
    | Request(who: Thread)
    | Wait(who: Thread, stopped: bool, late: bool)
    | Decide(id: Id, allow: bool)
    | DenyAll

  /** What happened, in order. */
  datatype Event =
    | Began(who: Thread, id: Id)
    | Answered(id: Id, allow: bool)
    | AllDenied
    | Ended(who: Thread, id: Id, decision: Decision)

  /** A requester that waits; `since` is where in the history its request began. */
  datatype Waiter = Waiter(ticket: Ticket, since: nat)

  /** `answeredAt` is where in the history the answer in the slot was given. */
  datatype System = System(slot: Slot, waiting: map<Thread, Waiter>, history: seq<Event>, answeredAt: nat)

  const INITIAL := System(EMPTY, map[], [], 0)

  /** Any thread does its next step. */
  function Next(y: System, act: Act): (r: System) {
    match act
    case Request(who) =>
      if who in y.waiting then y else
        var (slot, t) := Begun(y.slot);
        (match t
         case None => y
         case Some(ticket) =>
           y.(slot := slot, waiting := y.waiting[who := Waiter(ticket, |y.history|)],
              history := y.history + [Began(who, ticket.id)]))
    case Wait(who, stopped, late) =>
      if who !in y.waiting then y else
        var t := y.waiting[who].ticket;
        (match Verdict(y.slot, t, stopped, late)
         case None => y
         case Some(d) =>
           y.(slot := Left(y.slot, t), waiting := y.waiting - {who}, history := y.history + [Ended(who, t.id, d)]))
    case Decide(id, allow) =>
      var (slot, accepted) := Decided(y.slot, id, allow);
      if accepted then y.(slot := slot, history := y.history + [Answered(id, allow)], answeredAt := |y.history|) else y
    case DenyAll => y.(slot := DeniedAll(y.slot), history := y.history + [AllDenied])
  }

  function Run(acts: seq<Act>): (y: System) {
    if acts == [] then INITIAL else Next(Run(acts[..|acts| - 1]), acts[|acts| - 1])
  }

  function Stops(history: seq<Event>): (n: nat) {
    if history == [] then 0 else
      Stops(history[..|history| - 1]) + if history[|history| - 1].AllDenied? then 1 else 0
  }

  lemma StopsAfter(history: seq<Event>, e: Event)
    ensures Stops(history + [e]) == Stops(history) + if e.AllDenied? then 1 else 0
  {
    assert (history + [e])[..|history|] == history;
  }

  lemma {:induction false} NoStopSince(history: seq<Event>, i: nat, k: nat)
    requires i <= k < |history| && Stops(history[..i]) == Stops(history)
    ensures !history[k].AllDenied?
    decreases |history|
  {
    StopsGrow(history[..|history| - 1], i);
    assert history[..|history| - 1][..i] == history[..i];
    if k < |history| - 1 {
      NoStopSince(history[..|history| - 1], i, k);
    }
  }

  lemma {:induction false} StopsGrow(history: seq<Event>, i: nat)
    requires i <= |history|
    ensures Stops(history[..i]) <= Stops(history)
    decreases |history|
  {
    if i < |history| {
      StopsGrow(history[..|history| - 1], i);
      assert history[..|history| - 1][..i] == history[..i];
    } else {
      assert history[..i] == history;
    }
  }

  /** What is true of a waiter: its request is in the history, its epoch counts the stops before it, and as
      long as no stop came since, the slot is its own. */
  predicate WaiterFine(y: System, who: Thread)
    requires who in y.waiting
  {
    var w := y.waiting[who];
    && w.since < |y.history| && y.history[w.since] == Began(who, w.ticket.id)
    && w.ticket.epoch == Stops(y.history[..w.since]) && w.ticket.epoch <= y.slot.epoch
    && w.ticket.id <= y.slot.next
    && (w.ticket.epoch == y.slot.epoch ==> y.slot.pending == Some(w.ticket.id))
  }

  predicate AnswerFine(y: System) {
    y.slot.answer.Some? ==>
      && y.answeredAt < |y.history|
      && y.history[y.answeredAt] == Answered(y.slot.answer.value.0, y.slot.answer.value.1)
      && forall j :: y.answeredAt < j < |y.history| ==> !y.history[j].Answered?
  }

  ghost predicate BeganBefore(h: seq<Event>, k: nat, id: Id)
    requires k <= |h|
  {
    exists i :: 0 <= i < k && h[i].Began? && h[i].id == id
  }

  /** Ids are given out once, and only waiting actions are answered. */
  ghost predicate HistoryFine(h: seq<Event>, next: nat) {
    && (forall k :: 0 <= k < |h| && h[k].Began? ==> h[k].id <= next)
    && (forall j, k :: 0 <= j < k < |h| && h[j].Began? && h[k].Began? ==> h[j].id < h[k].id)
    && (forall k :: 0 <= k < |h| && h[k].Answered? ==> BeganBefore(h, k, h[k].id))
  }

  /** Why the `k`-th event may be a release: the request began, the member allowed exactly this action after
      that, answered nothing since, and nothing was stopped since the request began. */
  ghost predicate Justified(h: seq<Event>, k: nat)
    requires k < |h| && h[k].Ended?
  {
    exists i, j :: 0 <= i < j < k && h[i] == Began(h[k].who, h[k].id) && h[j] == Answered(h[k].id, true)
      && (forall m :: i < m < k ==> !h[m].AllDenied?) && (forall m :: j < m < k ==> !h[m].Answered?)
  }

  ghost predicate ReleasesFine(h: seq<Event>) {
    forall k :: 0 <= k < |h| && h[k].Ended? && h[k].decision == Allowed ==> Justified(h, k)
  }

  /** The waiting requesters. */
  ghost predicate WaitersFine(y: System) {
    && (forall who :: who in y.waiting ==> WaiterFine(y, who))
    && (forall a, b :: a in y.waiting && b in y.waiting && a != b ==> y.waiting[a].ticket.id != y.waiting[b].ticket.id)
  }

  /** The action in the slot is that of a requester that waits. */
  ghost predicate SlotFine(y: System) {
    y.slot.pending.Some? ==>
      && y.slot.pending.value <= y.slot.next
      && (exists who :: who in y.waiting && y.waiting[who].ticket == Ticket(y.slot.pending.value, y.slot.epoch))
  }

  ghost predicate Inv(y: System) {
    && y.slot.epoch == Stops(y.history) && HistoryFine(y.history, y.slot.next) && ReleasesFine(y.history)
    && WaitersFine(y) && AnswerFine(y) && SlotFine(y)
  }

  lemma JustifiedStays(h: seq<Event>, e: Event, k: nat)
    requires k < |h| && h[k].Ended? && Justified(h, k)
    ensures Justified(h + [e], k)
  {
    var i, j :| 0 <= i < j < k && h[i] == Began(h[k].who, h[k].id) && h[j] == Answered(h[k].id, true)
                && (forall m :: i < m < k ==> !h[m].AllDenied?) && (forall m :: j < m < k ==> !h[m].Answered?);
    var g := h + [e];
    assert g[i] == h[i] && g[j] == h[j] && forall m :: 0 <= m < k ==> g[m] == h[m];
  }

  lemma ReleasesStay(h: seq<Event>, e: Event)
    requires ReleasesFine(h) && (e.Ended? && e.decision == Allowed ==> Justified(h + [e], |h|))
    ensures ReleasesFine(h + [e])
  {
    forall k | 0 <= k < |h + [e]| && (h + [e])[k].Ended? && (h + [e])[k].decision == Allowed ensures Justified(h + [e], k) {
      if k < |h| {
        JustifiedStays(h, e, k);
      }
    }
  }

  lemma HistoryStays(h: seq<Event>, next: nat, e: Event, next1: nat)
    requires HistoryFine(h, next) && next <= next1
    requires e.Began? ==> next < e.id <= next1
    requires e.Answered? ==> BeganBefore(h, |h|, e.id)
    ensures HistoryFine(h + [e], next1)
  {
    var g := h + [e];
    forall k | 0 <= k < |g| && g[k].Answered? ensures BeganBefore(g, k, g[k].id) {
      assert BeganBefore(h, k, g[k].id);
      var i :| 0 <= i < k && h[i].Began? && h[i].id == g[k].id;
      assert g[i] == h[i];
    }
  }

  /** A waiter that nothing of this step concerns. */
  lemma WaiterStays(y: System, y1: System, who: Thread, e: Event)
    requires who in y.waiting && WaiterFine(y, who) && who in y1.waiting && y1.waiting[who] == y.waiting[who]
    requires y1.history == y.history + [e] && y.slot.next <= y1.slot.next && y.slot.epoch <= y1.slot.epoch
    requires y.waiting[who].ticket.epoch == y1.slot.epoch ==>
               y1.slot.pending == Some(y.waiting[who].ticket.id)
    ensures WaiterFine(y1, who)
  {
    var w := y.waiting[who];
    assert y1.history[..w.since] == y.history[..w.since];
  }

  /** The history shows why a waiter is released. */
  lemma ReleaseIsJustified(y: System, who: Thread)
    requires Inv(y) && who in y.waiting && y.waiting[who].ticket.epoch == y.slot.epoch
    requires y.slot.answer == Some((y.waiting[who].ticket.id, true))
    ensures Justified(y.history + [Ended(who, y.waiting[who].ticket.id, Allowed)], |y.history|)
  {
    var w := y.waiting[who];
    var h, e := y.history, Ended(who, w.ticket.id, Allowed);
    var g, i, j := h + [e], w.since, y.answeredAt;
    assert WaiterFine(y, who);
    assert BeganBefore(h, j, w.ticket.id);
    var b :| 0 <= b < j && h[b].Began? && h[b].id == w.ticket.id;
    assert b == i;
    forall m | i < m < |h| ensures !g[m].AllDenied? {
      NoStopSince(h, i, m);
    }
    assert g[i] == Began(who, w.ticket.id) && g[j] == Answered(w.ticket.id, true);
    assert forall m :: j < m < |h| ==> !g[m].Answered?;
  }

  lemma NewcomerIsFine(y: System, who: Thread)
    requires Inv(y) && who !in y.waiting && Begun(y.slot).1.Some?
    ensures WaiterFine(Next(y, Request(who)), who)
  {
    assert Next(y, Request(who)).history[..|y.history|] == y.history;
  }

  lemma OtherStaysFine(y: System, who: Thread, other: Thread)
    requires Inv(y) && who !in y.waiting && Begun(y.slot).1.Some? && other in y.waiting
    ensures WaiterFine(Next(y, Request(who)), other)
    ensures y.waiting[other].ticket.id <= y.slot.next
  {
    assert WaiterFine(y, other);
    WaiterStays(y, Next(y, Request(who)), other, Began(who, y.slot.next + 1));
  }

  lemma RequestKeepsWaiters(y: System, who: Thread)
    requires Inv(y) && who !in y.waiting && Begun(y.slot).1.Some?
    ensures WaitersFine(Next(y, Request(who))) && SlotFine(Next(y, Request(who)))
  {
    var y1 := Next(y, Request(who));
    assert y1.waiting[who].ticket == Ticket(y.slot.next + 1, y1.slot.epoch);
    NewcomerIsFine(y, who);
    forall other | other in y.waiting ensures WaiterFine(y1, other) && y.waiting[other].ticket.id <= y.slot.next {
      OtherStaysFine(y, who, other);
    }
    assert y1.waiting.Keys == y.waiting.Keys + {who};
  }

  lemma RequestKeepsHistory(y: System, who: Thread)
    requires Inv(y) && who !in y.waiting && Begun(y.slot).1.Some?
    ensures var y1 := Next(y, Request(who));
            && y1.slot.epoch == Stops(y1.history) && HistoryFine(y1.history, y1.slot.next) && ReleasesFine(y1.history)
            && AnswerFine(y1)
  {
    var y1 := Next(y, Request(who));
    var e := Began(who, y.slot.next + 1);
    assert y1.history == y.history + [e] && y1.slot == Slot(e.id, Some(e.id), None, y.slot.epoch);
    StopsAfter(y.history, e);
    HistoryStays(y.history, y.slot.next, e, e.id);
    ReleasesStay(y.history, e);
  }

  lemma RequestKeeps(y: System, who: Thread)
    requires Inv(y)
    ensures Inv(Next(y, Request(who)))
  {
    if who !in y.waiting && Begun(y.slot).1.Some? {
      RequestKeepsHistory(y, who);
      RequestKeepsWaiters(y, who);
    } else {
      assert Next(y, Request(who)) == y;
    }
  }

  lemma EndKeepsReleases(y: System, who: Thread, stopped: bool, late: bool)
    requires Inv(y) && who in y.waiting && Verdict(y.slot, y.waiting[who].ticket, stopped, late).Some?
    ensures ReleasesFine(Next(y, Wait(who, stopped, late)).history)
  {
    var t := y.waiting[who].ticket;
    var d := Verdict(y.slot, t, stopped, late).value;
    if d == Allowed {
      ReleaseIsJustified(y, who);
    }
    ReleasesStay(y.history, Ended(who, t.id, d));
  }

  lemma EndKeepsWaiters(y: System, who: Thread, stopped: bool, late: bool)
    requires Inv(y) && who in y.waiting && Verdict(y.slot, y.waiting[who].ticket, stopped, late).Some?
    ensures WaitersFine(Next(y, Wait(who, stopped, late))) && SlotFine(Next(y, Wait(who, stopped, late)))
  {
    var y1 := Next(y, Wait(who, stopped, late));
    var t := y.waiting[who].ticket;
    assert WaiterFine(y, who);
    forall other | other in y1.waiting ensures WaiterFine(y1, other) {
      assert WaiterFine(y, other);
      WaiterStays(y, y1, other, Ended(who, t.id, Verdict(y.slot, t, stopped, late).value));
    }
    if y1.slot.pending.Some? {
      var owner :| owner in y.waiting && y.waiting[owner].ticket == Ticket(y.slot.pending.value, y.slot.epoch);
      assert owner in y1.waiting;
    }
  }

  lemma WaitKeeps(y: System, who: Thread, stopped: bool, late: bool)
    requires Inv(y)
    ensures Inv(Next(y, Wait(who, stopped, late)))
  {
    if who in y.waiting && Verdict(y.slot, y.waiting[who].ticket, stopped, late).Some? {
      var t := y.waiting[who].ticket;
      var e := Ended(who, t.id, Verdict(y.slot, t, stopped, late).value);
      StopsAfter(y.history, e);
      HistoryStays(y.history, y.slot.next, e, y.slot.next);
      EndKeepsReleases(y, who, stopped, late);
      EndKeepsWaiters(y, who, stopped, late);
    }
  }

  lemma DecideKeeps(y: System, id: Id, allow: bool)
    requires Inv(y)
    ensures Inv(Next(y, Decide(id, allow)))
  {
    var y1 := Next(y, Decide(id, allow));
    if y1 != y {
      var e := Answered(id, allow);
      StopsAfter(y.history, e);
      var owner :| owner in y.waiting && y.waiting[owner].ticket == Ticket(id, y.slot.epoch);
      assert WaiterFine(y, owner);
      assert BeganBefore(y.history, |y.history|, id);
      HistoryStays(y.history, y.slot.next, e, y.slot.next);
      ReleasesStay(y.history, e);
      forall other | other in y1.waiting ensures WaiterFine(y1, other) {
        assert WaiterFine(y, other);
        WaiterStays(y, y1, other, e);
      }
      assert owner in y1.waiting;
    }
  }

  lemma DenyAllKeeps(y: System)
    requires Inv(y)
    ensures Inv(Next(y, DenyAll))
  {
    var y1 := Next(y, DenyAll);
    StopsAfter(y.history, AllDenied);
    HistoryStays(y.history, y.slot.next, AllDenied, y.slot.next);
    ReleasesStay(y.history, AllDenied);
    forall other | other in y1.waiting ensures WaiterFine(y1, other) {
      assert WaiterFine(y, other);
      WaiterStays(y, y1, other, AllDenied);
    }
  }

  lemma {:induction false} RunKeepsInv(acts: seq<Act>)
    ensures Inv(Run(acts))
    decreases |acts|
  {
    if acts != [] {
      var init, last := acts[..|acts| - 1], acts[|acts| - 1];
      RunKeepsInv(init);
      match last
      case Request(who) => RequestKeeps(Run(init), who);
      case Wait(who, stopped, late) => WaitKeeps(Run(init), who, stopped, late);
      case Decide(id, allow) => DecideKeeps(Run(init), id, allow);
      case DenyAll => DenyAllKeeps(Run(init));
    }
  }

  // ----- What every interleaving keeps -----------------------------------------------------------------------

  /** Over every interleaving: an action is released only by an accepted decision to allow exactly it, given
      after its request began and not taken back since, with no stop in between. */
  lemma AllowedOnlyByTheMember(acts: seq<Act>, k: nat)
    requires k < |Run(acts).history| && Run(acts).history[k].Ended? && Run(acts).history[k].decision == Allowed
    ensures Justified(Run(acts).history, k)
  {
    RunKeepsInv(acts);
  }

  /** A request ends once, and then waits no more. */
  ghost predicate EndsFine(y: System) {
    && (forall j :: 0 <= j < |y.history| && y.history[j].Ended? ==>
          y.history[j].id <= y.slot.next && forall who :: who in y.waiting ==> y.waiting[who].ticket.id != y.history[j].id)
    && (forall j, k :: 0 <= j < k < |y.history| && y.history[j].Ended? && y.history[k].Ended? ==>
          y.history[j].id != y.history[k].id)
  }

  lemma NextKeepsEnds(y: System, act: Act)
    requires WaitersFine(y) && EndsFine(y)
    ensures EndsFine(Next(y, act))
  {
    var y1 := Next(y, act);
    if act.Wait? && act.who in y.waiting && Verdict(y.slot, y.waiting[act.who].ticket, act.stopped, act.late).Some? {
      var t := y.waiting[act.who].ticket;
      var d := Verdict(y.slot, t, act.stopped, act.late).value;
      assert y1.history == y.history + [Ended(act.who, t.id, d)] && y1.waiting == y.waiting - {act.who};
      assert WaiterFine(y, act.who);
    } else {
      assert y1.history == y.history || exists e: Event :: !e.Ended? && y1.history == y.history + [e];
    }
  }

  lemma {:induction false} RunKeepsEnds(acts: seq<Act>)
    ensures EndsFine(Run(acts))
    decreases |acts|
  {
    if acts != [] {
      RunKeepsInv(acts[..|acts| - 1]);
      RunKeepsEnds(acts[..|acts| - 1]);
      NextKeepsEnds(Run(acts[..|acts| - 1]), acts[|acts| - 1]);
    }
  }

  /** One decision never releases another action, nor the same one twice. */
  lemma ReleasedOnce(acts: seq<Act>, j: nat, k: nat)
    requires j < k < |Run(acts).history| && Run(acts).history[j].Ended? && Run(acts).history[k].Ended?
    ensures Run(acts).history[j].id != Run(acts).history[k].id
  {
    RunKeepsEnds(acts);
  }

  /** At most one waiter belongs to the present epoch: the others were stopped and will be told so. */
  lemma OneCurrentWaiter(acts: seq<Act>, a: Thread, b: Thread)
    requires a in Run(acts).waiting && b in Run(acts).waiting
    requires Run(acts).waiting[a].ticket.epoch == Run(acts).slot.epoch
    requires Run(acts).waiting[b].ticket.epoch == Run(acts).slot.epoch
    ensures a == b
  {
    RunKeepsInv(acts);
    assert WaiterFine(Run(acts), a) && WaiterFine(Run(acts), b);
  }

  // ----- What each step answers, by what happened --------------------------------------------------------------

  /** Everything was denied after the request of this waiter began. */
  ghost predicate StoppedSince(y: System, who: Thread)
    requires who in y.waiting
  {
    exists k :: y.waiting[who].since < k < |y.history| && y.history[k] == AllDenied
  }

  lemma {:induction false} SomeStopSince(h: seq<Event>, i: nat)
    requires i <= |h| && Stops(h[..i]) != Stops(h)
    ensures exists k :: i <= k < |h| && h[k] == AllDenied
    decreases |h|
  {
    assert h[..|h|] == h;
    if h[|h| - 1] != AllDenied {
      assert h[..|h| - 1][..i] == h[..i];
      SomeStopSince(h[..|h| - 1], i);
    }
  }

  /** The epochs differ exactly when everything was denied meanwhile. */
  lemma StoppedIs(y: System, who: Thread)
    requires Inv(y) && who in y.waiting
    ensures y.waiting[who].ticket.epoch != y.slot.epoch <==> StoppedSince(y, who)
  {
    var w := y.waiting[who];
    assert WaiterFine(y, who);
    if w.ticket.epoch != y.slot.epoch {
      SomeStopSince(y.history, w.since);
    } else if StoppedSince(y, who) {
      var k :| w.since < k < |y.history| && y.history[k] == AllDenied;
      NoStopSince(y.history, w.since, k);
    }
  }

  /** How a look at the slot ends a wait, in any interleaving: stopped if everything was denied since the request
      began; otherwise as the member answered this very action; otherwise because the session stopped, even if it
      is late too; otherwise because it is late; and if none of these, nothing changes and the wait goes on. */
  lemma WaitEndsExactly(acts: seq<Act>, who: Thread, stopped: bool, late: bool)
    requires who in Run(acts).waiting
    ensures var y := Run(acts);
            var y1, id := Next(y, Wait(who, stopped, late)), y.waiting[who].ticket.id;
            if StoppedSince(y, who) then y1.history == y.history + [Ended(who, id, Stopped)]
            else if y.slot.answer == Some((id, true)) then y1.history == y.history + [Ended(who, id, Allowed)]
            else if y.slot.answer == Some((id, false)) then y1.history == y.history + [Ended(who, id, Declined)]
            else if stopped then y1.history == y.history + [Ended(who, id, SessionStopped)]
            else if late then y1.history == y.history + [Ended(who, id, TimedOut)]
            else y1 == y
    ensures var y := Run(acts);
            var y1 := Next(y, Wait(who, stopped, late));
            y1 != y ==> who !in y1.waiting && y1.slot.pending != Some(y.waiting[who].ticket.id)
                        && forall other :: other != who ==> (other in y1.waiting <==> other in y.waiting)
  {
    RunKeepsInv(acts);
    StoppedIs(Run(acts), who);
  }

  /** A request gets the slot, under a number never used before, unless there is a waiter that nothing stopped. */
  lemma RequestTurnedAwayExactly(acts: seq<Act>, who: Thread)
    requires who !in Run(acts).waiting
    ensures var y := Run(acts);
            var y1 := Next(y, Request(who));
            if exists other :: other in y.waiting && !StoppedSince(y, other) then y1 == y
            else
              && who in y1.waiting && y1.slot.answer == None
              && y1.history == y.history + [Began(who, y1.waiting[who].ticket.id)]
              && forall k :: 0 <= k < |y.history| && y.history[k].Began? ==> y.history[k].id < y1.waiting[who].ticket.id
  {
    RunKeepsInv(acts);
    var y := Run(acts);
    forall other | other in y.waiting
      ensures !StoppedSince(y, other) <==> y.waiting[other].ticket.epoch == y.slot.epoch
      ensures y.waiting[other].ticket.epoch == y.slot.epoch ==> y.slot.pending.Some?
    {
      StoppedIs(y, other);
      assert WaiterFine(y, other);
    }
  }

  /** A decision is taken exactly when it is about the action of a waiter that nothing stopped. */
  lemma DecisionTakenExactly(acts: seq<Act>, id: Id, allow: bool)
    ensures var y := Run(acts);
            var y1 := Next(y, Decide(id, allow));
            if exists who :: who in y.waiting && y.waiting[who].ticket.id == id && !StoppedSince(y, who) then
              && y1.history == y.history + [Answered(id, allow)] && y1.waiting == y.waiting
              && exists who :: WillHear(y1, who, allow) && y.waiting[who].ticket.id == id
            else y1 == y
  {
    RunKeepsInv(acts);
    var y := Run(acts);
    forall who | who in y.waiting
      ensures !StoppedSince(y, who) <==> y.waiting[who].ticket.epoch == y.slot.epoch
      ensures y.waiting[who].ticket.epoch == y.slot.epoch ==> y.slot.pending == Some(y.waiting[who].ticket.id)
    {
      StoppedIs(y, who);
      assert WaiterFine(y, who);
    }
    if y.slot.pending == Some(id) {
      var owner :| owner in y.waiting && y.waiting[owner].ticket == Ticket(id, y.slot.epoch);
      assert WillHear(Next(y, Decide(id, allow)), owner, allow);
    }
  }

  // ----- Delivery ------------------------------------------------------------------------------------------------

  /** The waiter's next look at the slot finds this answer. */
  predicate WillHear(y: System, who: Thread, allow: bool) {
    && who in y.waiting && y.waiting[who].ticket.epoch == y.slot.epoch
    && y.slot.answer == Some((y.waiting[who].ticket.id, allow))
  }

  /** A waiter of an earlier epoch looks at the slot, and leaves. */
  predicate StaleExit(y: System, act: Act) {
    act.Wait? && act.who in y.waiting && y.waiting[act.who].ticket.epoch != y.slot.epoch
  }

  /** An accepted answer stays for its waiter through a step of anybody else exactly when that step is not a
      stop, not the opposite decision, and not the exit of a stale waiter. */
  lemma AnswerIsKeptExactly(acts: seq<Act>, who: Thread, allow: bool, act: Act)
    requires WillHear(Run(acts), who, allow) && !(act.Wait? && act.who == who)
    ensures var y := Run(acts);
            WillHear(Next(y, act), who, allow) <==>
              !(act.DenyAll? || StaleExit(y, act) || (act.Decide? && act.id == y.waiting[who].ticket.id && act.allow != allow))
  {
    var y := Run(acts);
    RunKeepsInv(acts);
    assert WaiterFine(y, who);
    if act.Wait? && act.who in y.waiting {
      assert WaiterFine(y, act.who);
    }
  }

  /** An accepted answer is what the waiter's own next step returns. */
  lemma HeardAnswerIsReturned(y: System, who: Thread, allow: bool, stopped: bool, late: bool)
    requires WillHear(y, who, allow)
    ensures var y1 := Next(y, Wait(who, stopped, late));
            && who !in y1.waiting
            && y1.history == y.history + [Ended(who, y.waiting[who].ticket.id, if allow then Allowed else Declined)]
  {
  }

  lemma RunAfter(acts: seq<Act>, act: Act)
    ensures Run(acts + [act]) == Next(Run(acts), act)
  {
    assert (acts + [act])[..|acts|] == acts;
  }

  /** The loss does happen: a request, a stop, a second request, an accepted decision on it; the first
      requester leaves, and with it goes the answer of the second, who then waits until it is too late. */
  lemma StaleExitLosesAnAnswer()
    ensures var acts := [Request(0), DenyAll, Request(1), Decide(2, true), Wait(0, false, false), Wait(1, false, true)];
            Run(acts).history == [Began(0, 1), AllDenied, Began(1, 2), Answered(2, true), Ended(0, 1, Stopped), Ended(1, 2, TimedOut)]
  {
    var a: seq<Act> := [Request(0), DenyAll, Request(1), Decide(2, true)];
    var y := AnsweredInTime();
    RunAfter(a, Wait(0, false, false));
    RunAfter(a + [Wait(0, false, false)], Wait(1, false, true));
    var y1 := Next(y, Wait(0, false, false));
    var y2 := Next(y1, Wait(1, false, true));
    assert y1.history == y.history + [Ended(0, 1, Stopped)];
    assert y2.history == y.history + [Ended(0, 1, Stopped)] + [Ended(1, 2, TimedOut)];
    assert a + [Wait(0, false, false)] + [Wait(1, false, true)]
        == [Request(0), DenyAll, Request(1), Decide(2, true), Wait(0, false, false), Wait(1, false, true)];
  }

  lemma AnsweredInTime() returns (y: System)
    ensures y == Run([Request(0), DenyAll, Request(1), Decide(2, true)])
    ensures y.slot == Slot(2, Some(2), Some((2, true)), 1) && y.waiting.Keys == {0, 1}
    ensures y.waiting[0].ticket == Ticket(1, 0) && y.waiting[1].ticket == Ticket(2, 1)
    ensures y.history == [Began(0, 1), AllDenied, Began(1, 2), Answered(2, true)]
  {
    var a: seq<Act> := [];
    RunAfter(a, Request(0));
    RunAfter(a + [Request(0)], DenyAll);
    RunAfter(a + [Request(0)] + [DenyAll], Request(1));
    RunAfter(a + [Request(0)] + [DenyAll] + [Request(1)], Decide(2, true));
    assert a + [Request(0)] + [DenyAll] + [Request(1)] + [Decide(2, true)]
        == [Request(0), DenyAll, Request(1), Decide(2, true)];
    y := Run([Request(0), DenyAll, Request(1), Decide(2, true)]);
    assert y.history == [Began(0, 1)] + [AllDenied] + [Began(1, 2)] + [Answered(2, true)];
  }
}
