/** What `begin_step` works out before it writes (`agent-checkpoints/src/store.rs`). */
module StepBegin {
  // Which paths a step touches, what they hold, and what they should hold afterwards.

  import opened Wrappers
  import opened FileTree
  import opened Steps
  import opened UndoInverse

  /** A change a tool is about to make. */
  datatype Change =
    | Write(path: Given, sha: Hex)
    | Delete(path: Given)
    | Rename(from: Given, to: Given)

  datatype Kind = Writing(sha: Hex) | Deleting | RenameFrom | RenameTo(source: nat)

  datatype Plan = Plan(res: Resolved, kind: Kind) {
    /** The change may create the path. */
    predicate Creates() {
      kind.Writing? || kind.RenameTo?
    }
  }

  // ----- Plans -----------------------------------------------------------------------------------------

  /** The plans of one change, when `n` plans come before it. */
  function PlansFor(fs: Tree, root: Path, rootGiven: seq<Component>, change: Change, n: nat): (r: Result<seq<Plan>, Error>) {
    match change
    case Write(path, sha) =>
      var res :- Resolution(fs, root, rootGiven, path);
      Ok([Plan(res, Writing(sha))])
    case Delete(path) =>
      var res :- Resolution(fs, root, rootGiven, path);
      Ok([Plan(res, Deleting)])
    case Rename(from, to) =>
      var source :- Resolution(fs, root, rootGiven, from);
      var target :- Resolution(fs, root, rootGiven, to);
      Ok([Plan(source, RenameFrom), Plan(target, RenameTo(n))])
  }

  function PlansOf(fs: Tree, root: Path, rootGiven: seq<Component>, changes: seq<Change>): (r: Result<seq<Plan>, Error>) {
    if changes == [] then Ok([]) else
      var plans :- PlansOf(fs, root, rootGiven, changes[..|changes| - 1]);
      var more :- PlansFor(fs, root, rootGiven, changes[|changes| - 1], |plans|);
      Ok(plans + more)
  }

  method MakePlans(fs: Tree, root: Path, rootGiven: seq<Component>, changes: seq<Change>)
    returns (r: Result<seq<Plan>, Error>)
    requires Wf(fs)
    ensures r == PlansOf(fs, root, rootGiven, changes)
  {
    var plans: seq<Plan> := [];
    assert changes[..0] == [];
    for i := 0 to |changes|
      invariant PlansOf(fs, root, rootGiven, changes[..i]) == Ok(plans)
    {
      PlansPeel(fs, root, rootGiven, changes, i);
      match changes[i]
      case Write(path, sha) =>
        var res :- Resolve(fs, root, rootGiven, path);
        plans := plans + [Plan(res, Writing(sha))];
      case Delete(path) =>
        var res :- Resolve(fs, root, rootGiven, path);
        plans := plans + [Plan(res, Deleting)];
      case Rename(from, to) =>
        var fromIdx := |plans|;
        ghost var before := plans;
        var source :- Resolve(fs, root, rootGiven, from);
        plans := plans + [Plan(source, RenameFrom)];
        var target :- Resolve(fs, root, rootGiven, to);
        plans := plans + [Plan(target, RenameTo(fromIdx))];
        assert plans == before + [Plan(source, RenameFrom), Plan(target, RenameTo(fromIdx))];
    }
    assert changes[..|changes|] == changes;
    return Ok(plans);
  }

  /** The plans of a longer list start with those of a shorter one, and fail when those fail. */
  lemma {:induction false} PlansPeel(fs: Tree, root: Path, rootGiven: seq<Component>, changes: seq<Change>, i: nat)
    requires i < |changes|
    ensures changes[..i + 1][..i] == changes[..i] && changes[..i + 1][i] == changes[i]
    ensures PlansOf(fs, root, rootGiven, changes[..i + 1]).Err? ==>
              PlansOf(fs, root, rootGiven, changes) == PlansOf(fs, root, rootGiven, changes[..i + 1])
    decreases |changes|
  {
    assert changes[..i + 1][..i] == changes[..i];
    var n := |changes|;
    if i + 1 < n {
      PlansPeel(fs, root, rootGiven, changes[..n - 1], i);
      assert changes[..n - 1][..i + 1] == changes[..i + 1];
    } else {
      assert changes[..i + 1] == changes;
    }
  }

  /** What resolution guarantees of one plan. */
  ghost predicate PlanOk(fs: Tree, root: Path, plan: Plan) {
    var res := plan.res;
    && res.rel != [] && res.abs == root + res.rel && RelParentsOk(fs, root, res.rel)
    && res.missingDirs == MissingDirs(fs, root, res.rel, |res.rel|)
  }

  /** A rename's target comes right after its source. */
  predicate AfterItsSource(plans: seq<Plan>, i: nat)
    requires i < |plans|
  {
    plans[i].kind.RenameTo? ==> 0 < i && plans[i].kind.source == i - 1 && plans[i - 1].kind.RenameFrom?
  }

  ghost predicate WellPlanned(fs: Tree, root: Path, plans: seq<Plan>) {
    && (forall i :: 0 <= i < |plans| ==> PlanOk(fs, root, plans[i]))
    && (forall i :: 0 <= i < |plans| ==> AfterItsSource(plans, i))
  }

  lemma WellPlannedGrows(fs: Tree, root: Path, plans: seq<Plan>, more: seq<Plan>)
    requires WellPlanned(fs, root, plans)
    requires forall i :: 0 <= i < |more| ==> PlanOk(fs, root, more[i])
    requires forall i :: |plans| <= i < |plans + more| ==> AfterItsSource(plans + more, i)
    ensures WellPlanned(fs, root, plans + more)
  {
    forall i | 0 <= i < |plans| ensures AfterItsSource(plans + more, i) {
      assert AfterItsSource(plans, i);
    }
  }

  lemma PlansForAreOk(fs: Tree, root: Path, rootGiven: seq<Component>, change: Change, plans: seq<Plan>)
    requires PlansFor(fs, root, rootGiven, change, |plans|).Ok?
    ensures var more := PlansFor(fs, root, rootGiven, change, |plans|).value;
            && (forall i :: 0 <= i < |more| ==> PlanOk(fs, root, more[i]))
            && (forall i :: |plans| <= i < |plans + more| ==> AfterItsSource(plans + more, i))
  {
  }

  lemma {:induction false} PlansAreWellPlanned(fs: Tree, root: Path, rootGiven: seq<Component>, changes: seq<Change>)
    requires PlansOf(fs, root, rootGiven, changes).Ok?
    ensures WellPlanned(fs, root, PlansOf(fs, root, rootGiven, changes).value)
    decreases |changes|
  {
    if changes != [] {
      var init, last := changes[..|changes| - 1], changes[|changes| - 1];
      PlansAreWellPlanned(fs, root, rootGiven, init);
      var plans := PlansOf(fs, root, rootGiven, init).value;
      PlansForAreOk(fs, root, rootGiven, last, plans);
      WellPlannedGrows(fs, root, plans, PlansFor(fs, root, rootGiven, last, |plans|).value);
    }
  }

  predicate ListsEachOnce(plans: seq<Plan>) {
    forall i, j :: 0 <= i < j < |plans| ==> plans[i].res.rel != plans[j].res.rel
  }

  method CheckEachOnce(plans: seq<Plan>) returns (once: bool)
    ensures once == ListsEachOnce(plans)
  {
    var seen: set<Path> := {};
    for k := 0 to |plans|
      invariant forall p :: p in seen <==> exists i :: 0 <= i < k && plans[i].res.rel == p
      invariant forall i, j :: 0 <= i < j < k ==> plans[i].res.rel != plans[j].res.rel
    {
      if plans[k].res.rel in seen {
        return false;
      }
      seen := seen + {plans[k].res.rel};
    }
    return true;
  }

  // ----- Snapshots ----------------------------------------------------------------------------------------

  /** The prior state of one path, or why the step is refused. */
  function CaptureOf(fs: Tree, plan: Plan, maxFileBytes: nat): (r: Result<Prior, Error>) {
    match Lstat(fs, plan.res.abs)
    case Nothing => if plan.kind.RenameFrom? then Err(Unsupported) else Ok(WasAbsent)
    case Failed => Err(Io)
    case Found(Link(target)) =>
      if plan.kind.Writing? then Err(Unsupported)
      else (match target case Some(t) => Ok(WasSymlink(t)) case None => Err(Unsupported))
    case Found(File(content, mode)) =>
      if |content| > maxFileBytes then Err(TooLarge) else Ok(WasFile(Sha(content), |content|, mode))
    case Found(_) => Err(Unsupported)
  }

  /** What the path should hold once the change has landed. */
  function ExpectedAfter(kind: Kind, entries: seq<Entry>): (f: Fingerprint) {
    match kind
    case Writing(sha) => FileWith(sha)
    case Deleting => Absent
    case RenameFrom => Absent
    case RenameTo(source) => if source < |entries| then entries[source].before.Fingerprint() else Absent
  }

  function EntriesOf(fs: Tree, plans: seq<Plan>, maxFileBytes: nat): (r: Result<seq<Entry>, Error>) {
    if plans == [] then Ok([]) else
      var entries :- EntriesOf(fs, plans[..|plans| - 1], maxFileBytes);
      var last := plans[|plans| - 1];
      var before :- CaptureOf(fs, last, maxFileBytes);
      Ok(entries + [Entry(last.res.rel, before, ExpectedAfter(last.kind, entries), None)])
  }

  lemma {:induction false} EntriesPeel(fs: Tree, plans: seq<Plan>, maxFileBytes: nat, i: nat)
    requires i < |plans|
    ensures plans[..i + 1][..i] == plans[..i] && plans[..i + 1][i] == plans[i]
    ensures EntriesOf(fs, plans[..i + 1], maxFileBytes).Err? ==>
              EntriesOf(fs, plans, maxFileBytes) == EntriesOf(fs, plans[..i + 1], maxFileBytes)
    decreases |plans|
  {
    assert plans[..i + 1][..i] == plans[..i];
    var n := |plans|;
    if i + 1 < n {
      EntriesPeel(fs, plans[..n - 1], maxFileBytes, i);
      assert plans[..n - 1][..i + 1] == plans[..i + 1];
    } else {
      assert plans[..i + 1] == plans;
    }
  }

  /** Entries follow the plans one for one. */
  lemma {:induction false} EntriesAre(fs: Tree, plans: seq<Plan>, maxFileBytes: nat)
    requires EntriesOf(fs, plans, maxFileBytes).Ok?
    ensures var es := EntriesOf(fs, plans, maxFileBytes).value;
            && |es| == |plans|
            && forall i :: 0 <= i < |plans| ==>
                 && es[i].path == plans[i].res.rel && es[i].after.None?
                 && CaptureOf(fs, plans[i], maxFileBytes) == Ok(es[i].before)
                 && es[i].expectedAfter == ExpectedAfter(plans[i].kind, es[..i])
    decreases |plans|
  {
    if plans != [] {
      var init := plans[..|plans| - 1];
      EntriesAre(fs, init, maxFileBytes);
      var es, before := EntriesOf(fs, plans, maxFileBytes).value, EntriesOf(fs, init, maxFileBytes).value;
      assert es[..|init|] == before;
      forall i | 0 <= i < |plans|
        ensures && es[i].path == plans[i].res.rel && es[i].after.None?
                && CaptureOf(fs, plans[i], maxFileBytes) == Ok(es[i].before)
                && es[i].expectedAfter == ExpectedAfter(plans[i].kind, es[..i])
      {
        if i < |init| {
          assert es[..i] == before[..i] && es[i] == before[i] && plans[i] == init[i];
        }
      }
    }
  }

  /** Why no step is begun about a path: it cannot be looked at, or there is nothing to rename, or a link that is to be
      written to or cannot be read, or a file that is too large, or something else than a file or link. */
  ghost predicate CannotRecord(fs: Tree, plan: Plan, maxFileBytes: nat) {
    var p := plan.res.abs;
    || !ParentsOk(fs, p)
    || if p !in fs then plan.kind == RenameFrom else
         match fs[p]
         case File(content, _) => |content| > maxFileBytes
         case Link(target) => target == None || plan.kind.Writing?
         case _ => true
  }

  /** An entry names the path, what is there now, and what the change should leave there. */
  ghost predicate EntryFollows(fs: Tree, plans: seq<Plan>, entries: seq<Entry>, i: nat)
    requires |entries| == |plans| && i < |plans|
  {
    var e := entries[i];
    && e.path == plans[i].res.rel && Holds(fs, plans[i].res.abs, e.before) && e.after == None
    && (e.before.WasFile? ==> e.before.size == |e.before.blob.content|)
    && match plans[i].kind
       case Writing(sha) => e.expectedAfter == FileWith(sha)
       case Deleting => e.expectedAfter == Absent
       case RenameFrom => e.expectedAfter == Absent
       case RenameTo(source) => source < i ==> e.expectedAfter == entries[source].before.Fingerprint()
  }

  lemma CaptureExactly(fs: Tree, plan: Plan, maxFileBytes: nat)
    ensures CaptureOf(fs, plan, maxFileBytes).Err? <==> CannotRecord(fs, plan, maxFileBytes)
  {
  }

  lemma {:induction false} RecordedExactly(fs: Tree, plans: seq<Plan>, maxFileBytes: nat)
    ensures EntriesOf(fs, plans, maxFileBytes).Ok? <==>
            forall i :: 0 <= i < |plans| ==> !CannotRecord(fs, plans[i], maxFileBytes)
    decreases |plans|
  {
    if plans != [] {
      RecordedExactly(fs, plans[..|plans| - 1], maxFileBytes);
      CaptureExactly(fs, plans[|plans| - 1], maxFileBytes);
      assert forall i :: 0 <= i < |plans| - 1 ==> plans[..|plans| - 1][i] == plans[i];
    }
  }

  lemma EntriesExactly(fs: Tree, plans: seq<Plan>, maxFileBytes: nat)
    ensures var r := EntriesOf(fs, plans, maxFileBytes);
            && (r.Ok? <==> forall i :: 0 <= i < |plans| ==> !CannotRecord(fs, plans[i], maxFileBytes))
            && (r.Ok? ==> |r.value| == |plans| && forall i :: 0 <= i < |plans| ==> EntryFollows(fs, plans, r.value, i))
  {
    RecordedExactly(fs, plans, maxFileBytes);
    if EntriesOf(fs, plans, maxFileBytes).Ok? {
      EntriesAre(fs, plans, maxFileBytes);
    }
  }

  method Snapshot(fs: Tree, plans: seq<Plan>, maxFileBytes: nat) returns (r: Result<seq<Entry>, Error>)
    ensures r == EntriesOf(fs, plans, maxFileBytes)
    ensures r.Ok? <==> forall i :: 0 <= i < |plans| ==> !CannotRecord(fs, plans[i], maxFileBytes)
    ensures r.Ok? ==> |r.value| == |plans| && forall i :: 0 <= i < |plans| ==> EntryFollows(fs, plans, r.value, i)
  {
    EntriesExactly(fs, plans, maxFileBytes);
    var entries: seq<Entry> := [];
    assert plans[..0] == [];
    for i := 0 to |plans|
      invariant EntriesOf(fs, plans[..i], maxFileBytes) == Ok(entries)
    {
      EntriesPeel(fs, plans, maxFileBytes, i);
      var before :- CaptureOf(fs, plans[i], maxFileBytes);
      entries := entries + [Entry(plans[i].res.rel, before, ExpectedAfter(plans[i].kind, entries), None)];
    }
    assert plans[..|plans|] == plans;
    return Ok(entries);
  }

  // ----- Directories a step will create ---------------------------------------------------------------------

  function AddNew(ds: seq<Path>, more: seq<Path>): (r: seq<Path>)
    decreases |more|
  {
    if more == [] then ds else AddNew(if more[0] in ds then ds else ds + [more[0]], more[1..])
  }

  function DirsOf(plans: seq<Plan>): (ds: seq<Path>) {
    if plans == [] then [] else
      var ds, last := DirsOf(plans[..|plans| - 1]), plans[|plans| - 1];
      if last.Creates() then AddNew(ds, last.res.missingDirs) else ds
  }

  method CollectDirs(plans: seq<Plan>) returns (ds: seq<Path>)
    ensures ds == DirsOf(plans)
  {
    ds := [];
    assert plans[..0] == [];
    for i := 0 to |plans|
      invariant ds == DirsOf(plans[..i])
    {
      assert plans[..i + 1][..i] == plans[..i];
      if plans[i].Creates() {
        var missing := plans[i].res.missingDirs;
        ghost var before := ds;
        for j := 0 to |missing|
          invariant AddNew(ds, missing[j..]) == AddNew(before, missing)
        {
          assert missing[j..][1..] == missing[j + 1..];
          if missing[j] !in ds {
            ds := ds + [missing[j]];
          }
        }
        assert missing[|missing|..] == [];
      }
    }
    assert plans[..|plans|] == plans;
  }

  predicate Distinct(ds: seq<Path>) {
    forall i, j :: 0 <= i < j < |ds| ==> ds[i] != ds[j]
  }

  lemma {:induction false} AddNewAdds(ds: seq<Path>, more: seq<Path>)
    requires Distinct(ds)
    ensures Distinct(AddNew(ds, more)) && forall d :: d in AddNew(ds, more) <==> d in ds || d in more
    decreases |more|
  {
    if more != [] {
      AddNewAdds(if more[0] in ds then ds else ds + [more[0]], more[1..]);
    }
  }

  /** Exactly the missing directories above the paths the step may create, each once. */
  lemma {:induction false} DirsAre(plans: seq<Plan>)
    ensures Distinct(DirsOf(plans))
    ensures forall d :: d in DirsOf(plans) <==>
              exists i :: 0 <= i < |plans| && plans[i].Creates() && d in plans[i].res.missingDirs
    decreases |plans|
  {
    if plans != [] {
      var n := |plans|;
      var init := plans[..n - 1];
      DirsAre(init);
      assert forall i :: 0 <= i < n - 1 ==> init[i] == plans[i];
      AddNewAdds(DirsOf(init), plans[n - 1].res.missingDirs);
      forall d ensures d in DirsOf(plans) <==>
                         exists i :: 0 <= i < n && plans[i].Creates() && d in plans[i].res.missingDirs {
        if i :| 0 <= i < n && plans[i].Creates() && d in plans[i].res.missingDirs {
          if i < n - 1 {
            assert init[i].Creates() && d in init[i].res.missingDirs;
          }
        }
        if d in DirsOf(init) {
          var i :| 0 <= i < |init| && init[i].Creates() && d in init[i].res.missingDirs;
          assert plans[i].Creates() && d in plans[i].res.missingDirs;
        }
      }
    }
  }

  /** `sort_by_key` on the depth: shallowest first. */
  function InsertByDepth(d: Path, ds: seq<Path>): (r: seq<Path>) {
    if ds == [] || |d| <= |ds[0]| then [d] + ds else [ds[0]] + InsertByDepth(d, ds[1..])
  }

  function ByDepth(ds: seq<Path>): (r: seq<Path>) {
    if ds == [] then [] else InsertByDepth(ds[0], ByDepth(ds[1..]))
  }

  predicate Shallowest(ds: seq<Path>) {
    forall i, j :: 0 <= i < j < |ds| ==> |ds[i]| <= |ds[j]|
  }

  lemma {:induction false} InsertHolds(d: Path, ds: seq<Path>)
    ensures var r := InsertByDepth(d, ds);
            multiset(r) == multiset{d} + multiset(ds) && forall x :: x in r <==> x == d || x in ds
    decreases |ds|
  {
    if !(ds == [] || |d| <= |ds[0]|) {
      InsertHolds(d, ds[1..]);
      assert ds == [ds[0]] + ds[1..];
    }
  }

  lemma {:induction false} InsertKeeps(d: Path, ds: seq<Path>)
    requires Shallowest(ds)
    ensures Shallowest(InsertByDepth(d, ds))
    decreases |ds|
  {
    if !(ds == [] || |d| <= |ds[0]|) {
      var rest := InsertByDepth(d, ds[1..]);
      InsertKeeps(d, ds[1..]);
      InsertHolds(d, ds[1..]);
      forall i | 0 <= i < |rest| ensures |ds[0]| <= |rest[i]| {
        assert rest[i] in rest;
      }
    }
  }

  lemma {:induction false} ByDepthSorts(ds: seq<Path>)
    ensures Shallowest(ByDepth(ds)) && multiset(ByDepth(ds)) == multiset(ds)
    decreases |ds|
  {
    if ds != [] {
      ByDepthSorts(ds[1..]);
      InsertKeeps(ds[0], ByDepth(ds[1..]));
      InsertHolds(ds[0], ByDepth(ds[1..]));
      assert ds == [ds[0]] + ds[1..];
    }
  }

  lemma DistinctByCount(ds: seq<Path>)
    requires forall d :: multiset(ds)[d] <= 1
    ensures Distinct(ds)
  {
    forall i, j | 0 <= i < j < |ds| ensures ds[i] != ds[j] {
      assert ds == ds[..i] + [ds[i]] + ds[i + 1..j] + [ds[j]] + ds[j + 1..];
      assert ds[i] == ds[j] ==> multiset(ds)[ds[i]] >= 2;
    }
  }

  lemma {:induction false} CountOfDistinct(ds: seq<Path>, d: Path)
    requires Distinct(ds)
    ensures multiset(ds)[d] <= 1
    decreases |ds|
  {
    if ds != [] {
      CountOfDistinct(ds[1..], d);
      assert ds == [ds[0]] + ds[1..];
      if ds[0] == d {
        assert d !in ds[1..];
      }
    }
  }

  lemma SortedDirsAre(ds: seq<Path>)
    requires Distinct(ds)
    ensures Distinct(ByDepth(ds)) && Shallowest(ByDepth(ds)) && forall d :: d in ByDepth(ds) <==> d in ds
  {
    ByDepthSorts(ds);
    forall d ensures multiset(ByDepth(ds))[d] <= 1 {
      CountOfDistinct(ds, d);
    }
    DistinctByCount(ByDepth(ds));
    forall d ensures d in ByDepth(ds) <==> d in ds {
      assert d in ByDepth(ds) <==> d in multiset(ByDepth(ds));
    }
  }

  // ----- The manifest ----------------------------------------------------------------------------------------

  function ManifestOf(sid: SessionId, seqNo: nat, root: Path, entries: seq<Entry>, plans: seq<Plan>): (m: Manifest) {
    Manifest(sid, seqNo, root, Prepared, entries, ByDepth(DirsOf(plans)))
  }

  /** The paths a step is recorded for, and nothing has happened at them yet. */
  ghost predicate Planned(fs: Tree, root: Path, plans: seq<Plan>, entries: seq<Entry>, maxFileBytes: nat) {
    WellPlanned(fs, root, plans) && ListsEachOnce(plans) && EntriesOf(fs, plans, maxFileBytes) == Ok(entries)
  }

  lemma CreatedDirs(plans: seq<Plan>)
    ensures var ds := ByDepth(DirsOf(plans));
            && Distinct(ds) && Shallowest(ds)
            && forall d :: d in ds <==> exists i :: 0 <= i < |plans| && plans[i].Creates() && d in plans[i].res.missingDirs
  {
    DirsAre(plans);
    SortedDirsAre(DirsOf(plans));
  }

  lemma MissingOf(fs: Tree, root: Path, plan: Plan, d: Path)
    requires PlanOk(fs, root, plan)
    ensures d in plan.res.missingDirs <==> d != [] && Above(d, plan.res.rel) && root + d !in fs
  {
    var rel := plan.res.rel;
    MissingDirsAre(fs, root, rel, |rel|);
    if d != [] && Above(d, rel) && root + d !in fs {
      assert d == rel[..|d|];
    }
  }

  lemma DirsBelongToEntries(
      fs: Tree, root: Path, plans: seq<Plan>, entries: seq<Entry>, maxFileBytes: nat, d: Path)
    requires Planned(fs, root, plans, entries, maxFileBytes) && d in ByDepth(DirsOf(plans))
    ensures d != [] && root + d !in fs && exists i :: 0 <= i < |entries| && Above(d, entries[i].path)
  {
    CreatedDirs(plans);
    var i :| 0 <= i < |plans| && plans[i].Creates() && d in plans[i].res.missingDirs;
    MissingOf(fs, root, plans[i], d);
    EntriesAre(fs, plans, maxFileBytes);
    assert Above(d, entries[i].path);
  }

  lemma EntryAt(fs: Tree, root: Path, plans: seq<Plan>, entries: seq<Entry>, maxFileBytes: nat, i: nat)
    requires Planned(fs, root, plans, entries, maxFileBytes) && i < |plans|
    ensures |entries| == |plans| && entries[i].path == plans[i].res.rel
    ensures entries[i].path != [] && root + entries[i].path == plans[i].res.abs
    ensures CaptureOf(fs, plans[i], maxFileBytes) == Ok(entries[i].before)
    ensures entries[i].expectedAfter == ExpectedAfter(plans[i].kind, entries[..i]) && entries[i].after.None?
  {
    EntriesAre(fs, plans, maxFileBytes);
    assert PlanOk(fs, root, plans[i]);
  }

  /** The manifest is well formed. */
  lemma ManifestIsSound(
      fs: Tree, sid: SessionId, seqNo: nat, root: Path, plans: seq<Plan>, entries: seq<Entry>, maxFileBytes: nat)
    requires Planned(fs, root, plans, entries, maxFileBytes)
    ensures ManifestOf(sid, seqNo, root, entries, plans).Sound()
  {
    var ds := ByDepth(DirsOf(plans));
    CreatedDirs(plans);
    EntriesAre(fs, plans, maxFileBytes);
    forall i | 0 <= i < |entries| ensures entries[i].path == plans[i].res.rel && entries[i].path != [] {
      EntryAt(fs, root, plans, entries, maxFileBytes, i);
    }
    forall d | d in ds ensures d != [] && exists i :: 0 <= i < |entries| && Above(d, entries[i].path) {
      DirsBelongToEntries(fs, root, plans, entries, maxFileBytes, d);
    }
  }

  lemma CaptureHolds(fs: Tree, plan: Plan, maxFileBytes: nat)
    requires CaptureOf(fs, plan, maxFileBytes).Ok?
    ensures Holds(fs, plan.res.abs, CaptureOf(fs, plan, maxFileBytes).value)
  {
  }

  /** It records exactly what the tree holds, and the directories it lists were missing. */
  lemma ManifestCaptures(
      fs: Tree, sid: SessionId, seqNo: nat, root: Path, plans: seq<Plan>, entries: seq<Entry>, maxFileBytes: nat)
    requires Planned(fs, root, plans, entries, maxFileBytes)
    ensures Captured(fs, ManifestOf(sid, seqNo, root, entries, plans))
  {
    var m := ManifestOf(sid, seqNo, root, entries, plans);
    EntriesAre(fs, plans, maxFileBytes);
    forall i | 0 <= i < |m.entries| ensures Holds(fs, m.Abs(i), m.entries[i].before) {
      EntryAt(fs, root, plans, entries, maxFileBytes, i);
      CaptureHolds(fs, plans[i], maxFileBytes);
    }
    forall d | d in m.createdDirs ensures m.root + d !in fs {
      DirsBelongToEntries(fs, root, plans, entries, maxFileBytes, d);
    }
  }

  /** The directories listed are exactly those that must be made for a path the step writes or renames to. */
  lemma ManifestListsEveryNewDir(
      fs: Tree, sid: SessionId, seqNo: nat, root: Path, plans: seq<Plan>, entries: seq<Entry>, maxFileBytes: nat, d: Path)
    requires Planned(fs, root, plans, entries, maxFileBytes)
    ensures d in ManifestOf(sid, seqNo, root, entries, plans).createdDirs <==>
              && d != [] && root + d !in fs
              && exists i :: 0 <= i < |plans| && (plans[i].kind.Writing? || plans[i].kind.RenameTo?) && Above(d, plans[i].res.rel)
  {
    CreatedDirs(plans);
    forall i | 0 <= i < |plans|
      ensures d in plans[i].res.missingDirs <==> d != [] && Above(d, plans[i].res.rel) && root + d !in fs
      ensures plans[i].Creates() <==> plans[i].kind.Writing? || plans[i].kind.RenameTo?
    {
      MissingOf(fs, root, plans[i], d);
    }
  }

  /** A rename expects its target to hold what its source held, and its source to be gone. */
  lemma RenameExpectsSource(fs: Tree, root: Path, plans: seq<Plan>, entries: seq<Entry>, maxFileBytes: nat, i: nat)
    requires Planned(fs, root, plans, entries, maxFileBytes) && i < |plans| && plans[i].kind.RenameTo?
    ensures 0 < i < |entries| && entries[i].expectedAfter == entries[i - 1].before.Fingerprint()
    ensures entries[i - 1].expectedAfter == Absent && !entries[i - 1].before.WasAbsent?
  {
    assert AfterItsSource(plans, i);
    EntryAt(fs, root, plans, entries, maxFileBytes, i);
    EntryAt(fs, root, plans, entries, maxFileBytes, i - 1);
  }
}
