/** Which session loses a step when room is made. */
module StoreUses {
  // The one whose last use is longest ago, over every life of the store. A use is a begin, finish or undo that
  // went through (`CheckpointStore.BeginStep`, `Finish`, `UndoMany`); it is the moment the session's record on
  // disk gets a new time.

  import opened Steps
  import opened StoreState
  import opened StoreTrail
  import opened StoreTheorems

  /** The session was used with the `i`-th write of this life. */
  ghost predicate UsedAt(trail: seq<Moment>, i: nat, sid: SessionId) {
    0 < i < |trail| && MetaOf(trail[i].disk.metas, sid).lastUsed != MetaOf(trail[i - 1].disk.metas, sid).lastUsed
  }

  /** The session was used in life `l`, with the `i`-th write, no later than the end of that life. */
  ghost predicate UsedIn(ls: seq<Life>, l: nat, i: nat, sid: SessionId) {
    l < |ls| && i <= ls[l].ended && UsedAt(ls[l].trail, i, sid)
  }

  /** Since the `i`-th write of life `l` the session was used again. */
  ghost predicate UsedSince(ls: seq<Life>, l: nat, i: nat, sid: SessionId) {
    exists l1: nat, i1: nat :: (l < l1 || (l == l1 && i < i1)) && UsedIn(ls, l1, i1, sid)
  }

  ghost predicate UsedEver(ls: seq<Life>, sid: SessionId) {
    exists l: nat, i: nat :: UsedIn(ls, l, i, sid)
  }

  // ----- The clock tells the order of uses ------------------------------------------------------------------

  /** A use since a moment makes the session's time larger than any was at that moment. */
  lemma {:induction false} UseMovesAhead(trail: seq<Moment>, i: nat, n: nat, sid: SessionId)
    requires Story(trail) && i <= n < |trail|
    ensures LastUse(trail[i].disk.metas, sid) <= LastUse(trail[n].disk.metas, sid)
    ensures (exists j: nat :: i < j <= n && UsedAt(trail, j, sid)) ==>
              forall s :: LastUse(trail[i].disk.metas, s) < LastUse(trail[n].disk.metas, sid)
    ensures !(exists j: nat :: i < j <= n && UsedAt(trail, j, sid)) ==>
              LastUse(trail[n].disk.metas, sid) == LastUse(trail[i].disk.metas, sid)
    decreases n
  {
    if i < n {
      UseMovesAhead(trail, i, n - 1, sid);
      Next(trail, n - 1);
      var before, after := trail[n - 1].disk.metas, trail[n].disk.metas;
      if UsedAt(trail, n, sid) {
        assert UsedNext(before, after, sid);
        forall s ensures LastUse(trail[i].disk.metas, s) < LastUse(after, sid) {
          UseMovesAhead(trail, i, n - 1, s);
        }
      } else {
        assert LastUse(after, sid) == LastUse(before, sid);
        assert (exists j: nat :: i < j <= n && UsedAt(trail, j, sid)) <==>
               (exists j: nat :: i < j <= n - 1 && UsedAt(trail, j, sid));
      }
    }
  }

  lemma RestLives(ls: seq<Life>)
    requires Lives(ls) && |ls| > 1
    ensures Lives(ls[1..]) && Present(ls[1..]) == Present(ls)
    ensures ls[0].trail[ls[0].ended].disk == ls[1].trail[0].disk
  {
    var rest := ls[1..];
    forall l | 0 < l < |rest| ensures OpensOn(rest[l - 1], rest[l]) {
      assert OpensOn(ls[l], ls[l + 1]);
    }
    assert OpensOn(ls[0], ls[1]);
  }

  lemma UsedSinceInRest(ls: seq<Life>, i: nat, sid: SessionId)
    requires Lives(ls) && |ls| > 1 && i <= ls[0].ended
    ensures UsedSince(ls, 0, i, sid) <==>
              (exists j: nat :: i < j <= ls[0].ended && UsedAt(ls[0].trail, j, sid)) || UsedSince(ls[1..], 0, 0, sid)
  {
    var rest := ls[1..];
    if UsedSince(ls, 0, i, sid) {
      var l1: nat, i1: nat :| (0 < l1 || (0 == l1 && i < i1)) && UsedIn(ls, l1, i1, sid);
      if l1 > 0 {
        assert UsedIn(rest, l1 - 1, i1, sid);
      }
    }
    if UsedSince(rest, 0, 0, sid) {
      var l1: nat, i1: nat :| (0 < l1 || (0 == l1 && 0 < i1)) && UsedIn(rest, l1, i1, sid);
      assert UsedIn(ls, l1 + 1, i1, sid);
    }
    if j: nat :| i < j <= ls[0].ended && UsedAt(ls[0].trail, j, sid) {
      assert UsedIn(ls, 0, j, sid);
    }
  }

  lemma UsedSinceInLast(ls: seq<Life>, i: nat, sid: SessionId)
    requires Lives(ls) && |ls| == 1 && i <= ls[0].ended
    ensures UsedSince(ls, 0, i, sid) <==> exists j: nat :: i < j <= ls[0].ended && UsedAt(ls[0].trail, j, sid)
  {
    if j: nat :| i < j <= ls[0].ended && UsedAt(ls[0].trail, j, sid) {
      assert UsedIn(ls, 0, j, sid);
    }
  }

  /** The same over lives: reopening keeps the times. */
  lemma {:induction false} LaterUseIsAhead(ls: seq<Life>, i: nat, sid: SessionId)
    requires Lives(ls) && i <= ls[0].ended
    ensures var before, now := ls[0].trail[i].disk.metas, Present(ls).metas;
            && LastUse(before, sid) <= LastUse(now, sid)
            && (UsedSince(ls, 0, i, sid) ==> forall s :: LastUse(before, s) < LastUse(now, sid))
            && (!UsedSince(ls, 0, i, sid) ==> LastUse(now, sid) == LastUse(before, sid))
    decreases |ls|
  {
    var life := ls[0];
    UseMovesAhead(life.trail, i, life.ended, sid);
    if |ls| == 1 {
      UsedSinceInLast(ls, i, sid);
    } else {
      RestLives(ls);
      UsedSinceInRest(ls, i, sid);
      LaterUseIsAhead(ls[1..], 0, sid);
      forall s ensures LastUse(life.trail[i].disk.metas, s) <= LastUse(life.trail[life.ended].disk.metas, s) {
        UseMovesAhead(life.trail, i, life.ended, s);
      }
    }
  }

  lemma {:induction false} LivesFrom(ls: seq<Life>, l: nat)
    requires Lives(ls) && l < |ls|
    ensures Lives(ls[l..]) && Present(ls[l..]) == Present(ls)
    decreases l
  {
    if l == 0 {
      assert ls[0..] == ls;
    } else {
      RestLives(ls);
      LivesFrom(ls[1..], l - 1);
      assert ls[1..][l - 1..] == ls[l..];
    }
  }

  lemma UsedSinceFrom(ls: seq<Life>, l: nat, i: nat, sid: SessionId)
    requires Lives(ls) && l < |ls|
    ensures UsedSince(ls[l..], 0, i, sid) <==> UsedSince(ls, l, i, sid)
  {
    if UsedSince(ls[l..], 0, i, sid) {
      var l1: nat, i1: nat :| (0 < l1 || (0 == l1 && i < i1)) && UsedIn(ls[l..], l1, i1, sid);
      assert UsedIn(ls, l + l1, i1, sid);
    }
    if UsedSince(ls, l, i, sid) {
      var l1: nat, i1: nat :| (l < l1 || (l == l1 && i < i1)) && UsedIn(ls, l1, i1, sid);
      assert UsedIn(ls[l..], l1 - l, i1, sid);
    }
  }

  /** A session that was used, and another one not since then: by the clock the first was used later. */
  lemma UsedLaterIsAhead(ls: seq<Life>, l: nat, i: nat, sid: SessionId, other: SessionId)
    requires Lives(ls) && UsedIn(ls, l, i, sid) && other != sid && !UsedSince(ls, l, i, other)
    ensures LastUse(Present(ls).metas, other) < LastUse(Present(ls).metas, sid)
  {
    LivesFrom(ls, l);
    UsedSinceFrom(ls, l, i, other);
    LaterUseIsAhead(ls[l..], i, sid);
    LaterUseIsAhead(ls[l..], i, other);
    Next(ls[l].trail, i - 1);
    assert UsedNext(ls[l].trail[i - 1].disk.metas, ls[l].trail[i].disk.metas, sid);
  }

  /** Without a use a session's time is what it was when the first of these lives began. */
  lemma NeverUsedStays(ls: seq<Life>, sid: SessionId)
    requires Lives(ls) && !UsedEver(ls, sid)
    ensures LastUse(Present(ls).metas, sid) == LastUse(ls[0].trail[0].disk.metas, sid)
  {
    LaterUseIsAhead(ls, 0, sid);
  }

  // ----- Who loses a step -------------------------------------------------------------------------------------

  /** The store in memory, between two calls, at the end of these lives. */
  ghost predicate InMemory(
      ls: seq<Life>, c: Kept, blobs: map<Hex, nat>, tick: nat, floor: map<SessionId, nat>)
    requires Lives(ls)
  {
    Sane(c.steps, c.metas, blobs, tick, floor, Present(ls))
  }

  /** Room is made step by step, and only while it is missing; what goes each time could go. */
  lemma RoomIsMadeAsNeeded(c: Kept, evicted: seq<Key>, needed: nat, cap: nat, j: nat)
    requires Justified(c, evicted, needed, cap) && j < |evicted|
    ensures var now := EvictAll(c, evicted[..j]); Total(now.blobs) + needed > cap && CouldGo(now.steps, evicted[j])
    decreases j
  {
    if j == 0 {
      assert evicted[..0] == [];
      CouldGoExactly(c.steps, evicted[0]);
    } else {
      assert evicted[..j][0] == evicted[0] && evicted[..j][1..] == evicted[1..][..j - 1];
      RoomIsMadeAsNeeded(Evict(c, evicted[0]), evicted[1..], needed, cap, j - 1);
    }
  }

  /** What a call evicts next, while a step of another session could go as well. */
  ghost predicate ChosenOver(c: Kept, evicted: seq<Key>, j: nat, other: Key) {
    j < |evicted| && other.0 != evicted[j].0 && CouldGo(EvictAll(c, evicted[..j]).steps, other)
  }

  lemma {:induction false} ChosenIsVictim(c: Kept, evicted: seq<Key>, needed: nat, cap: nat, j: nat)
    requires Justified(c, evicted, needed, cap) && j < |evicted|
    ensures var now := EvictAll(c, evicted[..j]); IsVictim(now.steps, now.metas, evicted[j]) && SameUses(c.metas, now.metas)
    decreases j
  {
    if j == 0 {
      assert evicted[..0] == [];
    } else {
      assert evicted[..j][0] == evicted[0] && evicted[..j][1..] == evicted[1..][..j - 1];
      ChosenIsVictim(Evict(c, evicted[0]), evicted[1..], needed, cap, j - 1);
      assert SameUses(c.metas, Evict(c, evicted[0]).metas);
    }
  }

  /** Over any lives of the store, crashes included. When room for a new step takes a step of one session while
      one of another session could go as well, every use of the losing session is followed by a use of the other:
      its last use is longer ago. If neither was used since the first life began, with no record of an earlier
      use of either, the session with the smaller name loses. */
  lemma LeastRecentlyUsedLoses(
      ls: seq<Life>, c: Kept, blobs: map<Hex, nat>, tick: nat, floor: map<SessionId, nat>,
      evicted: seq<Key>, needed: nat, cap: nat, j: nat, other: Key)
    requires Lives(ls) && InMemory(ls, c, blobs, tick, floor)
    requires Justified(c, evicted, needed, cap) && ChosenOver(c, evicted, j, other)
    ensures var loser := evicted[j].0;
            && (forall l: nat, i: nat :: UsedIn(ls, l, i, loser) ==> UsedSince(ls, l, i, other.0))
            && (!UsedEver(ls, loser) && !UsedEver(ls, other.0) && ls[0].trail[0].disk.metas == map[] ==> loser < other.0)
  {
    var loser := evicted[j].0;
    ChosenIsVictim(c, evicted, needed, cap, j);
    UsesOnDisk(c.steps, c.metas, blobs, tick, floor, Present(ls));
    var now := EvictAll(c, evicted[..j]);
    CouldGoExactly(now.steps, other);
    assert UsedBefore(now.metas, evicted[j], other);
    assert LastUse(now.metas, loser) <= LastUse(now.metas, other.0);
    forall l: nat, i: nat | UsedIn(ls, l, i, loser) ensures UsedSince(ls, l, i, other.0) {
      if !UsedSince(ls, l, i, other.0) {
        UsedLaterIsAhead(ls, l, i, loser, other.0);
      }
    }
    if !UsedEver(ls, loser) && !UsedEver(ls, other.0) {
      NeverUsedStays(ls, loser);
      NeverUsedStays(ls, other.0);
    }
  }

  /** So the session used last loses a step only if no other session has one that could go. */
  lemma LastUsedIsSpared(
      ls: seq<Life>, c: Kept, blobs: map<Hex, nat>, tick: nat, floor: map<SessionId, nat>,
      evicted: seq<Key>, needed: nat, cap: nat, j: nat, l: nat, i: nat)
    requires Lives(ls) && InMemory(ls, c, blobs, tick, floor) && Justified(c, evicted, needed, cap) && j < |evicted|
    requires UsedIn(ls, l, i, evicted[j].0) && forall s :: s != evicted[j].0 ==> !UsedSince(ls, l, i, s)
    ensures forall other :: !ChosenOver(c, evicted, j, other)
  {
    forall other ensures !ChosenOver(c, evicted, j, other) {
      if ChosenOver(c, evicted, j, other) {
        LeastRecentlyUsedLoses(ls, c, blobs, tick, floor, evicted, needed, cap, j, other);
      }
    }
  }
}
