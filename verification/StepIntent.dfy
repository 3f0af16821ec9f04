/** What a begun step is recorded to lead to. */
module StepIntent {
  // Said from the changes that were asked for: each path of a step is as it was, or as its own change leaves
  // it, and those are the two states the undo of the step accepts.

  import opened Wrappers
  import opened FileTree
  import opened Steps
  import opened UndoInverse
  import opened StepBegin
  import opened StoreInvariants

  // ----- What a change leaves ------------------------------------------------------------------------------

  /** Files with the same bytes, or links with the same target; a file's mode is not looked at. */
  predicate Alike(a: Node, b: Node) {
    match a
    case File(content, _) => b.File? && b.content == content
    case Link(target) => target.Some? && b == a
    case _ => false
  }

  /** The path is as it was. */
  predicate Untouched(fs0: Tree, fs: Tree, p: Path) {
    if p in fs0 then p in fs && Alike(fs0[p], fs[p]) else p !in fs
  }

  /** The path a change names, below the granted folder. */
  predicate LeadsTo(root: Path, rootGiven: seq<Component>, given: Given, p: Path) {
    BelowRoot(root, rootGiven, given).Some? && p == root + Names(BelowRoot(root, rootGiven, given).value)
  }

  /** What one change leaves at a path it is about: a write the content with that hash, a delete and the source of
      a rename nothing, the target of a rename what its source held before. */
  ghost predicate Leaves(fs0: Tree, root: Path, rootGiven: seq<Component>, change: Change, fs: Tree, p: Path) {
    match change
    case Write(path, sha) => LeadsTo(root, rootGiven, path, p) && p in fs && fs[p].File? && Sha(fs[p].content) == sha
    case Delete(path) => LeadsTo(root, rootGiven, path, p) && p !in fs
    case Rename(from, to) =>
      || (LeadsTo(root, rootGiven, from, p) && p !in fs)
      || (exists q :: LeadsTo(root, rootGiven, from, q) && LeadsTo(root, rootGiven, to, p)
                      && q in fs0 && p in fs && Alike(fs0[q], fs[p]))
  }

  ghost predicate LeftByAChange(
      fs0: Tree, root: Path, rootGiven: seq<Component>, changes: seq<Change>, fs: Tree, p: Path)
  {
    exists j :: 0 <= j < |changes| && Leaves(fs0, root, rootGiven, changes[j], fs, p)
  }

  /** Each path of the step is as it was; or, until its state was recorded at commit, as one of the changes leaves
      it; or, since then, as it was found at commit. Paths are independent: a step may be cut short anywhere. */
  ghost predicate AsWasOrChanged(
      fs0: Tree, root: Path, rootGiven: seq<Component>, changes: seq<Change>, m: Manifest, fs: Tree)
  {
    forall i :: 0 <= i < |m.entries| ==>
      || Untouched(fs0, fs, m.Abs(i))
      || match m.entries[i].after
         case None => LeftByAChange(fs0, root, rootGiven, changes, fs, m.Abs(i))
         case Some(found) => FingerprintNow(fs, m.Abs(i)) == Ok(found)
  }

  // ----- Plans and changes ------------------------------------------------------------------------------------

  /** The `i`-th plan is a plan of this change. */
  ghost predicate IsOf(fs: Tree, root: Path, rootGiven: seq<Component>, change: Change, plans: seq<Plan>, i: nat)
    requires i < |plans|
  {
    match change
    case Write(path, sha) => plans[i].kind == Writing(sha) && Resolution(fs, root, rootGiven, path) == Ok(plans[i].res)
    case Delete(path) => plans[i].kind == Deleting && Resolution(fs, root, rootGiven, path) == Ok(plans[i].res)
    case Rename(from, to) =>
      || (plans[i].kind == RenameFrom && Resolution(fs, root, rootGiven, from) == Ok(plans[i].res))
      || IsTarget(fs, root, rootGiven, from, to, plans, i)
  }

  /** The `i`-th plan is the target of this rename, and the one before it the source. */
  ghost predicate IsTarget(
      fs: Tree, root: Path, rootGiven: seq<Component>, from: Given, to: Given, plans: seq<Plan>, i: nat)
    requires i < |plans|
  {
    && 0 < i && plans[i].kind == RenameTo(i - 1) && Resolution(fs, root, rootGiven, to) == Ok(plans[i].res)
    && plans[i - 1].kind == RenameFrom && Resolution(fs, root, rootGiven, from) == Ok(plans[i - 1].res)
  }

  /** Every plan is of some change. */
  ghost predicate AllOfChanges(fs: Tree, root: Path, rootGiven: seq<Component>, changes: seq<Change>, plans: seq<Plan>) {
    forall i: nat :: i < |plans| ==> OfSome(fs, root, rootGiven, changes, plans, i)
  }

  ghost predicate OfSome(
      fs: Tree, root: Path, rootGiven: seq<Component>, changes: seq<Change>, plans: seq<Plan>, i: nat)
    requires i < |plans|
  {
    exists j :: 0 <= j < |changes| && IsOf(fs, root, rootGiven, changes[j], plans, i)
  }

  /** A change has all its plans. */
  ghost predicate HasPlans(fs: Tree, root: Path, rootGiven: seq<Component>, change: Change, plans: seq<Plan>) {
    match change
    case Write(_, _) => exists i: nat :: i < |plans| && IsOf(fs, root, rootGiven, change, plans, i)
    case Delete(_) => exists i: nat :: i < |plans| && IsOf(fs, root, rootGiven, change, plans, i)
    case Rename(from, to) => exists i: nat :: i < |plans| && IsTarget(fs, root, rootGiven, from, to, plans, i)
  }

  lemma PlansOfOne(fs: Tree, root: Path, rootGiven: seq<Component>, change: Change, plans: seq<Plan>)
    requires PlansFor(fs, root, rootGiven, change, |plans|).Ok?
    ensures var all := plans + PlansFor(fs, root, rootGiven, change, |plans|).value;
            && HasPlans(fs, root, rootGiven, change, all)
            && forall i: nat :: |plans| <= i < |all| ==> IsOf(fs, root, rootGiven, change, all, i)
  {
    var all := plans + PlansFor(fs, root, rootGiven, change, |plans|).value;
    var n := |plans|;
    match change
    case Write(_, _) => assert IsOf(fs, root, rootGiven, change, all, n);
    case Delete(_) => assert IsOf(fs, root, rootGiven, change, all, n);
    case Rename(from, to) => assert IsTarget(fs, root, rootGiven, from, to, all, n + 1);
  }

  lemma MorePlansKeep(fs: Tree, root: Path, rootGiven: seq<Component>, change: Change, plans: seq<Plan>, more: seq<Plan>)
    ensures forall i: nat :: i < |plans| && IsOf(fs, root, rootGiven, change, plans, i) ==>
                               IsOf(fs, root, rootGiven, change, plans + more, i)
    ensures HasPlans(fs, root, rootGiven, change, plans) ==> HasPlans(fs, root, rootGiven, change, plans + more)
  {
    var all := plans + more;
    assert forall i: nat :: i < |plans| ==> all[i] == plans[i];
    if HasPlans(fs, root, rootGiven, change, plans) {
      match change
      case Write(_, _) =>
        var i: nat :| i < |plans| && IsOf(fs, root, rootGiven, change, plans, i);
        assert IsOf(fs, root, rootGiven, change, all, i);
      case Delete(_) =>
        var i: nat :| i < |plans| && IsOf(fs, root, rootGiven, change, plans, i);
        assert IsOf(fs, root, rootGiven, change, all, i);
      case Rename(from, to) =>
        var i: nat :| i < |plans| && IsTarget(fs, root, rootGiven, from, to, plans, i);
        assert IsTarget(fs, root, rootGiven, from, to, all, i);
    }
  }

  /** Plans and changes belong together, both ways. */
  lemma {:induction false} PlansAndChanges(fs: Tree, root: Path, rootGiven: seq<Component>, changes: seq<Change>)
    requires PlansOf(fs, root, rootGiven, changes).Ok?
    ensures var plans := PlansOf(fs, root, rootGiven, changes).value;
            && AllOfChanges(fs, root, rootGiven, changes, plans)
            && forall j :: 0 <= j < |changes| ==> HasPlans(fs, root, rootGiven, changes[j], plans)
    decreases |changes|
  {
    if changes != [] {
      var n := |changes| - 1;
      var init, last := changes[..n], changes[n];
      PlansAndChanges(fs, root, rootGiven, init);
      var plans := PlansOf(fs, root, rootGiven, init).value;
      var more := PlansFor(fs, root, rootGiven, last, |plans|).value;
      PlansOfOne(fs, root, rootGiven, last, plans);
      forall i: nat | i < |plans + more| ensures OfSome(fs, root, rootGiven, changes, plans + more, i) {
        if i < |plans| {
          assert OfSome(fs, root, rootGiven, init, plans, i);
          var j :| 0 <= j < |init| && IsOf(fs, root, rootGiven, init[j], plans, i);
          MorePlansKeep(fs, root, rootGiven, init[j], plans, more);
          assert changes[j] == init[j];
        } else {
          assert IsOf(fs, root, rootGiven, changes[n], plans + more, i);
        }
      }
      forall j | 0 <= j < |changes| ensures HasPlans(fs, root, rootGiven, changes[j], plans + more) {
        if j < n {
          assert changes[j] == init[j];
          MorePlansKeep(fs, root, rootGiven, init[j], plans, more);
        }
      }
    }
  }

  // ----- Fingerprints say it ------------------------------------------------------------------------------------

  lemma UntouchedIs(fs0: Tree, fs: Tree, p: Path, before: Prior)
    requires Holds(fs0, p, before) && ParentsOk(fs, p)
    ensures FingerprintNow(fs, p) == Ok(before.Fingerprint()) <==> Untouched(fs0, fs, p)
  {
  }

  /** A path shows what another one held. */
  lemma MovedIs(fs0: Tree, fs: Tree, q: Path, p: Path, before: Prior)
    requires Holds(fs0, q, before) && !before.WasAbsent? && ParentsOk(fs, p)
    ensures FingerprintNow(fs, p) == Ok(before.Fingerprint()) <==> q in fs0 && p in fs && Alike(fs0[q], fs[p])
  {
  }

  // ----- What a begun step expects --------------------------------------------------------------------------------

  lemma OnePlanAPath(fs: Tree, root: Path, plans: seq<Plan>, i: nat, j: nat)
    requires WellPlanned(fs, root, plans) && ListsEachOnce(plans) && i < |plans| && j < |plans|
    requires plans[i].res.abs == plans[j].res.abs
    ensures i == j
  {
    assert PlanOk(fs, root, plans[i]) && PlanOk(fs, root, plans[j]);
    var a, b := plans[i].res.rel, plans[j].res.rel;
    assert (root + a)[|root|..] == a && (root + b)[|root|..] == b;
  }

  lemma EntryHolds(fs0: Tree, root: Path, plans: seq<Plan>, entries: seq<Entry>, maxFileBytes: nat, i: nat)
    requires Planned(fs0, root, plans, entries, maxFileBytes) && i < |plans|
    ensures |entries| == |plans| && root + entries[i].path == plans[i].res.abs
    ensures Holds(fs0, plans[i].res.abs, entries[i].before)
  {
    EntryAt(fs0, root, plans, entries, maxFileBytes, i);
    CaptureHolds(fs0, plans[i], maxFileBytes);
  }

  /** What a plan expects is what its change leaves. */
  lemma PlanExpects(
      fs0: Tree, root: Path, rootGiven: seq<Component>, change: Change, plans: seq<Plan>, entries: seq<Entry>,
      maxFileBytes: nat, fs: Tree, i: nat)
    requires Planned(fs0, root, plans, entries, maxFileBytes) && i < |plans|
    requires IsOf(fs0, root, rootGiven, change, plans, i) && ParentsOk(fs, plans[i].res.abs)
    ensures |entries| == |plans| && root + entries[i].path == plans[i].res.abs
    ensures FingerprintNow(fs, plans[i].res.abs) == Ok(entries[i].expectedAfter) ==>
              Leaves(fs0, root, rootGiven, change, fs, plans[i].res.abs)
  {
    EntryAt(fs0, root, plans, entries, maxFileBytes, i);
    if change.Rename? && plans[i].kind.RenameTo? {
      RenameExpectsSource(fs0, root, plans, entries, maxFileBytes, i);
      EntryHolds(fs0, root, plans, entries, maxFileBytes, i - 1);
      MovedIs(fs0, fs, plans[i - 1].res.abs, plans[i].res.abs, entries[i - 1].before);
    }
  }

  /** What a change leaves is what the plan of that path expects. */
  lemma ChangeIsExpected(
      fs0: Tree, root: Path, rootGiven: seq<Component>, change: Change, plans: seq<Plan>, entries: seq<Entry>,
      maxFileBytes: nat, fs: Tree, i: nat)
    requires Planned(fs0, root, plans, entries, maxFileBytes) && i < |plans|
    requires HasPlans(fs0, root, rootGiven, change, plans) && ParentsOk(fs, plans[i].res.abs)
    requires Leaves(fs0, root, rootGiven, change, fs, plans[i].res.abs)
    ensures |entries| == |plans| && FingerprintNow(fs, plans[i].res.abs) == Ok(entries[i].expectedAfter)
  {
    var p := plans[i].res.abs;
    EntryAt(fs0, root, plans, entries, maxFileBytes, i);
    match change
    case Write(_, _) =>
      var at: nat :| at < |plans| && IsOf(fs0, root, rootGiven, change, plans, at);
      OnePlanAPath(fs0, root, plans, i, at);
    case Delete(_) =>
      var at: nat :| at < |plans| && IsOf(fs0, root, rootGiven, change, plans, at);
      OnePlanAPath(fs0, root, plans, i, at);
    case Rename(from, to) =>
      var at: nat :| at < |plans| && IsTarget(fs0, root, rootGiven, from, to, plans, at);
      RenameExpectsSource(fs0, root, plans, entries, maxFileBytes, at);
      if LeadsTo(root, rootGiven, from, p) && p !in fs {
        OnePlanAPath(fs0, root, plans, i, at - 1);
      } else {
        OnePlanAPath(fs0, root, plans, i, at);
        EntryHolds(fs0, root, plans, entries, maxFileBytes, at - 1);
        MovedIs(fs0, fs, plans[at - 1].res.abs, p, entries[at - 1].before);
      }
  }

  lemma EntryExpectsChanges(
      fs0: Tree, root: Path, rootGiven: seq<Component>, changes: seq<Change>, plans: seq<Plan>, entries: seq<Entry>,
      maxFileBytes: nat, fs: Tree, i: nat)
    requires PlansOf(fs0, root, rootGiven, changes) == Ok(plans) && Planned(fs0, root, plans, entries, maxFileBytes)
    requires i < |plans| && ParentsOk(fs, plans[i].res.abs)
    ensures |entries| == |plans| && root + entries[i].path == plans[i].res.abs
    ensures FingerprintNow(fs, plans[i].res.abs) == Ok(entries[i].expectedAfter) <==>
            LeftByAChange(fs0, root, rootGiven, changes, fs, plans[i].res.abs)
    ensures FingerprintNow(fs, plans[i].res.abs) == Ok(entries[i].before.Fingerprint()) <==>
            Untouched(fs0, fs, plans[i].res.abs)
  {
    PlansAndChanges(fs0, root, rootGiven, changes);
    EntryHolds(fs0, root, plans, entries, maxFileBytes, i);
    UntouchedIs(fs0, fs, plans[i].res.abs, entries[i].before);
    assert OfSome(fs0, root, rootGiven, changes, plans, i);
    var of :| 0 <= of < |changes| && IsOf(fs0, root, rootGiven, changes[of], plans, i);
    PlanExpects(fs0, root, rootGiven, changes[of], plans, entries, maxFileBytes, fs, i);
    if LeftByAChange(fs0, root, rootGiven, changes, fs, plans[i].res.abs) {
      var j :| 0 <= j < |changes| && Leaves(fs0, root, rootGiven, changes[j], fs, plans[i].res.abs);
      ChangeIsExpected(fs0, root, rootGiven, changes[j], plans, entries, maxFileBytes, fs, i);
    }
  }

  /** The two states the undo of a begun step accepts at each path, said from the changes: the manifest of the
      step, in whatever status it is, names for every path just what was there and what the step's own change
      leaves there, and once the step was committed what was found then. */
  lemma StepExpectsItsChanges(
      fs0: Tree, sid: SessionId, n: nat, root: Path, rootGiven: seq<Component>, changes: seq<Change>, plans: seq<Plan>,
      entries: seq<Entry>, maxFileBytes: nat, m: Manifest, fs: Tree)
    requires PlansOf(fs0, root, rootGiven, changes) == Ok(plans) && Planned(fs0, root, plans, entries, maxFileBytes)
    requires SameStep(ManifestOf(sid, n, root, entries, plans), m)
    requires forall i :: 0 <= i < |m.entries| ==> ParentsOk(fs, m.Abs(i))
    ensures EachBeforeOrAfter(fs, m) <==> AsWasOrChanged(fs0, root, rootGiven, changes, m, fs)
  {
    EntriesAre(fs0, plans, maxFileBytes);
    forall i: nat | i < |m.entries|
      ensures FingerprintNow(fs, m.Abs(i)) == Ok(m.entries[i].before.Fingerprint()) <==> Untouched(fs0, fs, m.Abs(i))
      ensures m.entries[i].after.None? ==>
                (FingerprintNow(fs, m.Abs(i)) == Ok(m.entries[i].Post()) <==>
                 LeftByAChange(fs0, root, rootGiven, changes, fs, m.Abs(i)))
    {
      EntryAt(fs0, root, plans, entries, maxFileBytes, i);
      assert m.Abs(i) == plans[i].res.abs;
      EntryExpectsChanges(fs0, root, rootGiven, changes, plans, entries, maxFileBytes, fs, i);
    }
  }
}
