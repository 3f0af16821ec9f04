/** What the store's answers say. */
module StoreMeaning {
  // Of changes, paths and steps: which steps it begins and why it refuses others, what a finished step records,
  // which steps a session undo works through, and what an undo checks, restores, reports and marks.

  import opened Wrappers
  import opened FileTree
  import opened Steps
  import opened Undo
  import opened UndoInverse
  import opened UndoSession
  import opened UndoRun
  import opened StepBegin
  import opened StoreState
  import opened StoreInvariants
  import opened CheckpointStore

  // ----- Which steps are begun ----------------------------------------------------------------------------------

  /** Every path of the change is one the tool may name. */
  predicate MayName(fs: Tree, root: Path, rootGiven: seq<Component>, change: Change) {
    match change
    case Write(path, _) => Resolution(fs, root, rootGiven, path).Ok?
    case Delete(path) => Resolution(fs, root, rootGiven, path).Ok?
    case Rename(from, to) => Resolution(fs, root, rootGiven, from).Ok? && Resolution(fs, root, rootGiven, to).Ok?
  }

  lemma {:induction false} PlansExactly(fs: Tree, root: Path, rootGiven: seq<Component>, changes: seq<Change>)
    ensures var r := PlansOf(fs, root, rootGiven, changes);
            && (r.Ok? <==> forall j :: 0 <= j < |changes| ==> MayName(fs, root, rootGiven, changes[j]))
            && (r.Err? ==> r.error == PathRefused)
    decreases |changes|
  {
    if changes != [] {
      PlansExactly(fs, root, rootGiven, changes[..|changes| - 1]);
      assert forall j :: 0 <= j < |changes| - 1 ==> changes[..|changes| - 1][j] == changes[j];
    }
  }

  /** The first path of the plans that another step has in flight, named as the tool named it. */
  ghost predicate FirstTaken(plans: seq<Plan>, busy: set<Path>, rel: Path) {
    exists i :: 0 <= i < |plans| && plans[i].res.abs in busy && plans[i].res.rel == rel
                && forall j :: 0 <= j < i ==> plans[j].res.abs !in busy
  }

  lemma {:induction false} FirstBusyExactly(plans: seq<Plan>, busy: set<Path>)
    ensures match FirstBusyOf(plans, busy)
            case None => forall i :: 0 <= i < |plans| ==> plans[i].res.abs !in busy
            case Some(rel) => FirstTaken(plans, busy, rel)
    decreases |plans|
  {
    if plans != [] {
      var rest := plans[1..];
      assert forall i :: 0 < i < |plans| ==> plans[i] == rest[i - 1];
      if plans[0].res.abs in busy {
        assert FirstTaken(plans, busy, plans[0].res.rel);
      } else {
        FirstBusyExactly(rest, busy);
        if FirstBusyOf(rest, busy).Some? {
          var i :| 0 <= i < |rest| && rest[i].res.abs in busy && rest[i].res.rel == FirstBusyOf(rest, busy).value
                   && forall j :: 0 <= j < i ==> rest[j].res.abs !in busy;
          assert plans[i + 1].res.abs in busy;
          assert forall j :: 0 <= j < i + 1 ==> plans[j].res.abs !in busy;
        }
      }
    }
  }

  ghost predicate NamesTwice(plans: seq<Plan>) {
    exists i, j :: 0 <= i < j < |plans| && plans[i].res.rel == plans[j].res.rel
  }

  /** A step gets as far as the store exactly when the granted folder is a directory, every path is one the tool may
      name, none is named twice, none belongs to a step in flight, and what is at each can be recorded. The reasons
      for a refusal are looked at in this order. */
  lemma ScreenedExactly(
      fs: Tree, root: Path, rootGiven: seq<Component>, changes: seq<Change>, busy: set<Path>, maxFileBytes: nat)
    ensures var r := Screened(fs, root, rootGiven, changes, busy, maxFileBytes);
            var named := root in fs && fs[root] == Dir && forall j :: 0 <= j < |changes| ==> MayName(fs, root, rootGiven, changes[j]);
            && (named ==> PlansOf(fs, root, rootGiven, changes).Ok?)
            && (!named ==> r == Err(PathRefused))
            && (named ==>
                  var plans := PlansOf(fs, root, rootGiven, changes).value;
                  if NamesTwice(plans) then r == Err(PathRefused)
                  else if exists i :: 0 <= i < |plans| && plans[i].res.abs in busy then
                    exists rel :: FirstTaken(plans, busy, rel) && r == Err(Error.Busy(rel))
                  else
                    && (r.Ok? <==> forall i :: 0 <= i < |plans| ==> !CannotRecord(fs, plans[i], maxFileBytes))
                    && (r.Ok? ==>
                          && r.value.0 == plans && |r.value.1| == |plans|
                          && forall i :: 0 <= i < |plans| ==> EntryFollows(fs, plans, r.value.1, i)))
  {
    PlansExactly(fs, root, rootGiven, changes);
    if root in fs && fs[root] == Dir && PlansOf(fs, root, rootGiven, changes).Ok? {
      var plans := PlansOf(fs, root, rootGiven, changes).value;
      FirstBusyExactly(plans, busy);
      EntriesExactly(fs, plans, maxFileBytes);
    }
  }

  /** The snapshots the entries need are those of the files they list. */
  lemma {:induction false} FilesExactly(entries: seq<Entry>, h: Hex)
    ensures h in FilesOf(entries) <==> exists i :: 0 <= i < |entries| && entries[i].before.WasFile? && entries[i].before.blob == h
    decreases |entries|
  {
    if entries != [] {
      FilesExactly(entries[..|entries| - 1], h);
      assert forall i :: 0 <= i < |entries| - 1 ==> entries[..|entries| - 1][i] == entries[i];
    }
  }

  /** What becomes of a step that is not refused before. Its bytes are those of the snapshots not in the store yet: it is
      too large exactly when they exceed the cap; the store is full exactly when they still do not fit with no step
      left that could go; otherwise it is recorded under a number no kept step has, with its snapshots, and of the
      other steps just the evicted ones are gone. */
  lemma BegunExactly(
      fs: Tree, sid: SessionId, root: Path, rootGiven: seq<Component>, changes: seq<Change>,
      cap: nat, maxFileBytes: nat, before: Kept, busyBefore: set<Path>,
      r: Result<nat, Error>, evicted: seq<Key>, after: Kept, busyAfter: set<Path>)
    requires Begun(fs, sid, root, rootGiven, changes, cap, maxFileBytes, before, busyBefore, r, evicted, after, busyAfter)
    requires Screened(fs, root, rootGiven, changes, busyBefore, maxFileBytes).Ok?
    ensures var (plans, entries) := Screened(fs, root, rootGiven, changes, busyBefore, maxFileBytes).value;
            var needed := Total(FilesOf(entries) - before.blobs);
            && (r == Err(StepTooLarge(needed, cap)) <==> needed > cap)
            && (r.Err? && needed <= cap ==>
                  && r.error == StoreFull(needed, cap) && Total(after.blobs) + needed > cap
                  && (forall k :: !CouldGo(after.steps, k)) && busyAfter == busyBefore)
            && (r.Ok? ==>
                  && (sid, r.value) in after.steps && after.steps[(sid, r.value)].entries == entries
                  && after.steps[(sid, r.value)].root == root && after.steps[(sid, r.value)].status == Prepared
                  && FilesOf(entries) <= after.blobs
                  && busyAfter == busyBefore + AbsOf(plans)
                  && forall k :: k != (sid, r.value) ==> (k in after.steps <==> k in EvictAll(before, evicted).steps))
  {
    forall k ensures Evictable(after.steps, k) <==> CouldGo(after.steps, k) {
      CouldGoExactly(after.steps, k);
    }
  }

  // ----- What finishing records -----------------------------------------------------------------------------------

  lemma {:induction false} AfterExactly(root: Path, entries: seq<Entry>, now: Path -> Result<Fingerprint, Error>)
    ensures var r := AfterOf(root, entries, now);
            && (r.Ok? <==> forall i :: 0 <= i < |entries| ==> now(root + entries[i].path).Ok?)
            && (r.Ok? ==> |r.value| == |entries| && forall i :: 0 <= i < |entries| ==>
                  now(root + entries[i].path).Ok? && r.value[i] == entries[i].(after := Some(now(root + entries[i].path).value)))
    decreases |entries|
  {
    if entries != [] {
      AfterExactly(root, entries[..|entries| - 1], now);
      assert forall i :: 0 <= i < |entries| - 1 ==> entries[..|entries| - 1][i] == entries[i];
    }
  }

  /** Committing succeeds exactly when every path can be looked at, and then records of each what was seen; not
      committing only calls the step interrupted. Nothing else of the step changes. */
  lemma FinishedExactly(m: Manifest, commit: bool, now: Path -> Result<Fingerprint, Error>)
    ensures var r := FinishedStep(m, commit, now);
            if !commit then r == Ok(m.(status := Interrupted))
            else
              && (r.Ok? <==> forall i :: 0 <= i < |m.entries| ==> now(m.root + m.entries[i].path).Ok?)
              && (r.Ok? ==>
                    && r.value == m.(status := Committed, entries := r.value.entries) && |r.value.entries| == |m.entries|
                    && forall i :: 0 <= i < |m.entries| ==>
                         now(m.root + m.entries[i].path).Ok?
                         && r.value.entries[i] == m.entries[i].(after := Some(now(m.root + m.entries[i].path).value)))
  {
    AfterExactly(m.root, m.entries, now);
  }

  // ----- What an undo goes through, marks and reports ---------------------------------------------------------------

  /** The steps a session undo works through: every kept step of the session up to its last number that is not undone,
      and no other, newest first. */
  lemma {:induction false} NewestFirstExactly(steps: StepMap, sid: SessionId, last: nat)
    requires Keyed(steps)
    ensures var ms := NewestFirst(steps, sid, last);
            && (forall m :: m in ms <==>
                  0 < m.seqNo <= last && (sid, m.seqNo) in steps && steps[(sid, m.seqNo)] == m && m.status != Undone)
            && (forall i, j :: 0 <= i < j < |ms| ==> ms[j].seqNo < ms[i].seqNo)
    decreases last
  {
    if last > 0 {
      NewestFirstExactly(steps, sid, last - 1);
      var rest := NewestFirst(steps, sid, last - 1);
      forall i | 0 <= i < |rest| ensures rest[i].seqNo < last {
        assert rest[i] in rest;
      }
      assert (sid, last) in steps ==> steps[(sid, last)].seqNo == last;
    }
  }

  /** The steps that were undone are marked so, and nothing else is. */
  lemma {:induction false} MarkedExactly(steps: StepMap, ms: seq<Manifest>, k: Key)
    ensures var marked := Marked(steps, ms);
            && (k in marked <==> k in steps || exists i :: 0 <= i < |ms| && (ms[i].session, ms[i].seqNo) == k)
            && ((forall i :: 0 <= i < |ms| ==> (ms[i].session, ms[i].seqNo) != k) ==>
                  (k in marked <==> k in steps) && (k in steps ==> marked[k] == steps[k]))
            && (k in marked && (exists i :: 0 <= i < |ms| && (ms[i].session, ms[i].seqNo) == k) ==>
                  exists i :: 0 <= i < |ms| && (ms[i].session, ms[i].seqNo) == k && marked[k] == ms[i].(status := Undone))
    decreases |ms|
  {
    if ms != [] {
      var init := ms[..|ms| - 1];
      MarkedExactly(steps, init, k);
      assert forall i :: 0 <= i < |init| ==> init[i] == ms[i];
      if (ms[|ms| - 1].session, ms[|ms| - 1].seqNo) != k && k in Marked(steps, init)
         && exists i :: 0 <= i < |init| && (init[i].session, init[i].seqNo) == k {
        var i :| 0 <= i < |init| && (init[i].session, init[i].seqNo) == k && Marked(steps, init)[k] == init[i].(status := Undone);
        assert ms[i] == init[i];
      }
    }
  }

  /** How many paths the first of these steps list. */
  function ListedBefore(ms: seq<Manifest>, k: nat): (n: nat)
    requires k <= |ms|
  {
    if k == 0 then 0 else ListedBefore(ms, k - 1) + |ms[k - 1].entries|
  }

  lemma {:induction false} ListedBeforeSame(init: seq<Manifest>, ms: seq<Manifest>, k: nat)
    requires init <= ms && k <= |init|
    ensures ListedBefore(init, k) == ListedBefore(ms, k)
    decreases k
  {
    if k > 0 {
      ListedBeforeSame(init, ms, k - 1);
    }
  }

  /** The report names the steps in the order they were undone, and as many paths as they list. */
  lemma {:induction false} StepsReported(ms: seq<Manifest>)
    ensures var r := ReportOf(ms);
            && |r.steps| == |ms| && (forall k :: 0 <= k < |ms| ==> r.steps[k] == ms[k].seqNo)
            && |r.restored| == ListedBefore(ms, |ms|) && r.prunedThrough == None
    decreases |ms|
  {
    if ms != [] {
      StepsReported(ms[..|ms| - 1]);
      ListedBeforeSame(ms[..|ms| - 1], ms, |ms| - 1);
    }
  }

  /** And it names each step's paths in its order, after those of the steps undone before it. */
  lemma {:induction false} ReportExactly(ms: seq<Manifest>, k: nat, i: nat)
    requires k < |ms| && i < |ms[k].entries|
    ensures var r := ReportOf(ms);
            ListedBefore(ms, k) + i < |r.restored| && r.restored[ListedBefore(ms, k) + i] == ms[k].entries[i].path
    decreases |ms|
  {
    var n := |ms| - 1;
    StepsReported(ms[..n]);
    ListedBeforeSame(ms[..n], ms, k);
    if k < n {
      ReportExactly(ms[..n], k, i);
    } else {
      assert PathsOf(ms[n])[i] == ms[n].entries[i].path;
    }
  }

  // ----- What an undo checks ----------------------------------------------------------------------------------------

  /** The folder is a directory, and whatever exists above the path below it is one, no link. */
  predicate StillBelow(fs: Tree, root: Path, rel: Path) {
    root in fs && fs[root] == Dir && forall j :: 0 < j < |rel| && root + rel[..j] in fs ==> fs[root + rel[..j]] == Dir
  }

  /** An undo passes its checks exactly when no path is in flight, every folder and what leads to every path are still
      directories, no path is in another state than recorded, step by step, and every snapshot it needs is there and
      is what its name says. */
  lemma PassesExactly(fs: Tree, seen: BlobStore, busy: set<Path>, ms: seq<Manifest>)
    ensures Passes(fs, seen, busy, ms) <==>
              && (forall k, i :: 0 <= k < |ms| && 0 <= i < |ms[k].entries| ==> ms[k].root + ms[k].entries[i].path !in busy)
              && (forall k :: 0 <= k < |ms| ==> ms[k].root in fs && fs[ms[k].root] == Dir)
              && (forall k, i :: 0 <= k < |ms| && 0 <= i < |ms[k].entries| ==> StillBelow(fs, ms[k].root, ms[k].entries[i].path))
              && Preflight(fs, map[], Actions(ms)) == Ok([])
              && (forall k, i :: 0 <= k < |ms| && 0 <= i < |ms[k].entries| ==>
                    match ms[k].entries[i].before
                    case WasFile(blob, _, _) => blob in seen && Sha(seen[blob]) == blob
                    case _ => true)
  {
    BusyExactly(ms, busy);
    forall k, i | 0 <= k < |ms| && 0 <= i < |ms[k].entries| && ms[k].root in fs && fs[ms[k].root] == Dir
      ensures RelParentsOk(fs, ms[k].root, ms[k].entries[i].path) <==> StillBelow(fs, ms[k].root, ms[k].entries[i].path)
    {
      StillBelowIs(fs, ms[k].root, ms[k].entries[i].path);
    }
  }

  lemma StillBelowIs(fs: Tree, root: Path, rel: Path)
    requires root in fs && fs[root] == Dir
    ensures RelParentsOk(fs, root, rel) <==> StillBelow(fs, root, rel)
  {
    assert forall j :: 0 < j < |rel| ==> Ancestor(root, rel, j) == root + rel[..j];
  }

  lemma BusyExactly(ms: seq<Manifest>, busy: set<Path>)
    ensures BusyPath(ms, busy).None? <==>
            forall k, i :: 0 <= k < |ms| && 0 <= i < |ms[k].entries| ==> ms[k].root + ms[k].entries[i].path !in busy
  {
    NoBusyPath(ms, busy);
    forall k, i | 0 <= k < |ms| && 0 <= i < |ms[k].entries| ensures ms[k].root + ms[k].entries[i].path in Listed(ms) {
      PathsAreListed(ms, k);
      assert ms[k].Abs(i) in ms[k].Paths();
    }
    forall p | p in Listed(ms)
      ensures exists k, i :: 0 <= k < |ms| && 0 <= i < |ms[k].entries| && ms[k].root + ms[k].entries[i].path == p
    {
      var k := ListedBy(ms, p);
    }
  }

  lemma {:induction false} ListedBy(ms: seq<Manifest>, p: Path) returns (k: nat)
    requires p in Listed(ms)
    ensures k < |ms| && p in ms[k].Paths()
    decreases |ms|
  {
    if p in ms[0].Paths() {
      k := 0;
    } else {
      var j := ListedBy(ms[1..], p);
      k := j + 1;
    }
  }

  /** The path named as busy is one that another step has in flight, and none that comes before it is. */
  ghost predicate FirstListedBusy(ms: seq<Manifest>, busy: set<Path>, rel: Path) {
    exists k, i :: 0 <= k < |ms| && 0 <= i < |ms[k].entries| && IsFirstBusy(ms, busy, k, i) && rel == ms[k].entries[i].path
  }

  ghost predicate IsFirstBusy(ms: seq<Manifest>, busy: set<Path>, k: int, i: int)
    requires 0 <= k < |ms| && 0 <= i < |ms[k].entries|
  {
    && ms[k].root + ms[k].entries[i].path in busy
    && (forall j :: 0 <= j < i ==> ms[k].root + ms[k].entries[j].path !in busy)
    && (forall l, j :: 0 <= l < k && 0 <= j < |ms[l].entries| ==> ms[l].root + ms[l].entries[j].path !in busy)
  }

  lemma {:induction false} BusyEntryNamed(m: Manifest, from: nat, busy: set<Path>)
    requires from <= |m.entries|
    ensures match BusyEntry(m, from, busy)
            case None => forall i :: from <= i < |m.entries| ==> m.root + m.entries[i].path !in busy
            case Some(rel) =>
              exists i :: from <= i < |m.entries| && m.root + m.entries[i].path in busy && m.entries[i].path == rel
                          && forall j :: from <= j < i ==> m.root + m.entries[j].path !in busy
    decreases |m.entries| - from
  {
    if from < |m.entries| {
      BusyEntryNamed(m, from + 1, busy);
      if m.Abs(from) in busy {
        assert m.root + m.entries[from].path in busy;
      }
    }
  }

  lemma {:induction false} BusyNamesTheFirst(ms: seq<Manifest>, busy: set<Path>)
    requires BusyPath(ms, busy).Some?
    ensures FirstListedBusy(ms, busy, BusyPath(ms, busy).value)
    decreases |ms|
  {
    BusyEntryNamed(ms[0], 0, busy);
    if BusyEntry(ms[0], 0, busy).Some? {
      var i :| 0 <= i < |ms[0].entries| && ms[0].root + ms[0].entries[i].path in busy
               && ms[0].entries[i].path == BusyEntry(ms[0], 0, busy).value
               && forall j :: 0 <= j < i ==> ms[0].root + ms[0].entries[j].path !in busy;
      assert IsFirstBusy(ms, busy, 0, i);
    } else {
      var rest := ms[1..];
      BusyNamesTheFirst(rest, busy);
      var k, i :| 0 <= k < |rest| && 0 <= i < |rest[k].entries| && IsFirstBusy(rest, busy, k, i)
                  && BusyPath(rest, busy).value == rest[k].entries[i].path;
      assert forall l :: 0 < l < |ms| ==> ms[l] == rest[l - 1];
      assert IsFirstBusy(ms, busy, k + 1, i);
    }
  }

  // ----- What one restore does ----------------------------------------------------------------------------------------

  lemma ParentsReach(fs: Tree, p: Path)
    requires p != []
    ensures ParentsOk(fs, p) <==> ParentsOk(fs, Parent(p)) && (Parent(p) in fs ==> fs[Parent(p)] == Dir)
  {
    var d := Parent(p);
    assert forall i :: 0 <= i < |d| ==> d[..i] == p[..i];
    assert d == p[..|p| - 1];
  }

  /** Restoring a path, whatever is there. A directory is never removed or replaced, nothing is reached through a link
      or file, and a snapshot that is missing or not what its name says is not put back; otherwise the path holds what
      it held, and nothing else changes but directories made above it. */
  lemma RestoreExactly(fs: Tree, blobs: BlobStore, p: Path, prior: Prior)
    requires Wf(fs) && p != []
    ensures var r := Restore(fs, blobs, p, prior);
            match prior
            case WasAbsent =>
              r == if !ParentsOk(fs, p) then Err(Io) else if p in fs && fs[p] == Dir then Err(Unsupported) else Ok(fs - {p})
            case WasFile(blob, _, mode) =>
              if !ParentsOk(fs, p) then r == Err(Io)
              else if !(blob in blobs && Sha(blobs[blob]) == blob) then r == Err(Corrupt)
              else if p in fs && fs[p] == Dir then r == Err(Io)
              else r.Ok? && OnlyAt(fs, r.value, p) && p in r.value && r.value[p] == File(blob.content, mode)
            case WasSymlink(target) =>
              if !ParentsOk(fs, p) || (p in fs && fs[p] == Dir) then r == Err(Io)
              else r.Ok? && OnlyAt(fs, r.value, p) && p in r.value && r.value[p] == Link(Some(target))
  {
    ParentsReach(fs, p);
    if ParentsOk(fs, p) {
      MissingIsNotThere(fs, p);
      if !(p in fs && fs[p] == Dir) && (prior.WasFile? ==> BlobVerifies(blobs, prior.blob)) {
        RestoreResult(fs, blobs, p, prior);
      }
    }
  }

  /** Making the directories above a path makes nothing at it. */
  lemma MissingIsNotThere(fs: Tree, p: Path)
    requires p != []
    ensures p !in MissingUpTo(fs, Parent(p))
  {
    assert forall i :: 0 <= i <= |p| - 1 ==> |Parent(p)[..i]| < |p|;
  }

  // ----- What an eviction leaves --------------------------------------------------------------------------------------

  /** Evicting a step drops it and no other, drops exactly the snapshots no other step needs, and its session is pruned
      through it; other sessions are as they were. */
  lemma EvictExactly(c: Kept, k: Key)
    ensures var r := Evict(c, k);
            && (forall j :: j in r.steps <==> j in c.steps && j != k) && (forall j :: j in r.steps ==> r.steps[j] == c.steps[j])
            && (forall h :: h in r.blobs <==> h in c.blobs && exists j :: j in c.steps && j != k && Needs(c.steps[j], h))
            && k.0 in r.metas && r.metas[k.0].prunedThrough == (if MetaOf(c.metas, k.0).prunedThrough < k.1 then k.1 else MetaOf(c.metas, k.0).prunedThrough)
            && r.metas[k.0].lastSeq == MetaOf(c.metas, k.0).lastSeq && r.metas[k.0].lastUsed == MetaOf(c.metas, k.0).lastUsed
            && forall s :: s != k.0 ==> (s in r.metas <==> s in c.metas) && (s in c.metas ==> r.metas[s] == c.metas[s])
  {
    var steps := c.steps - {k};
    forall h ensures h in Referenced(steps) <==> exists j :: j in c.steps && j != k && Needs(c.steps[j], h) {
      if j :| j in c.steps && j != k && Needs(c.steps[j], h) {
        assert j in steps && steps[j] == c.steps[j];
        assert h in Referenced(steps);
      }
      if h in Referenced(steps) {
        var j, i :| j in steps && 0 <= i < |steps[j].entries| && steps[j].entries[i].before.WasFile?
                    && steps[j].entries[i].before.blob == h;
        assert Needs(c.steps[j], h);
      }
    }
  }

  /** The undo of the step takes this snapshot. */
  ghost predicate Needs(m: Manifest, h: Hex) {
    exists i :: 0 <= i < |m.entries| && m.entries[i].before.WasFile? && m.entries[i].before.blob == h
  }
}
