/** The loops of `undo_many` (`agent-checkpoints/src/store.rs`): what is checked before anything is
    touched, and the restores. */
module UndoRun {
  import opened Wrappers
  import opened FileTree
  import opened Steps
  import opened Undo
  import opened UndoTheorems
  import opened UndoInverse
  import opened UndoSession

  // ----- Nothing may be in flight ----------------------------------------------------------------------

  function BusyEntry(m: Manifest, i: nat, busy: set<Path>): (r: Option<Path>)
    requires i <= |m.entries|
    decreases |m.entries| - i
  {
    if i == |m.entries| then None
    else if m.Abs(i) in busy then Some(m.entries[i].path)
    else BusyEntry(m, i + 1, busy)
  }

  /** The first listed path with a step in flight. */
  function BusyPath(ms: seq<Manifest>, busy: set<Path>): (r: Option<Path>) {
    if ms == [] then None else
      match BusyEntry(ms[0], 0, busy)
      case Some(p) => Some(p)
      case None => BusyPath(ms[1..], busy)
  }

  method CheckBusy(ms: seq<Manifest>, busy: set<Path>) returns (r: Option<Path>)
    ensures r == BusyPath(ms, busy)
  {
    for k := 0 to |ms|
      invariant BusyPath(ms, busy) == BusyPath(ms[k..], busy)
    {
      assert ms[k..][1..] == ms[k + 1..];
      for i := 0 to |ms[k].entries|
        invariant BusyEntry(ms[k], 0, busy) == BusyEntry(ms[k], i, busy)
      {
        if ms[k].Abs(i) in busy {
          return Some(ms[k].entries[i].path);
        }
      }
    }
    return None;
  }

  lemma {:induction false} NoBusyEntry(m: Manifest, i: nat, busy: set<Path>)
    requires i <= |m.entries|
    ensures BusyEntry(m, i, busy).None? <==> forall j :: i <= j < |m.entries| ==> m.Abs(j) !in busy
    decreases |m.entries| - i
  {
    if i < |m.entries| {
      NoBusyEntry(m, i + 1, busy);
    }
  }

  /** The check passes exactly when no listed path is in flight. */
  lemma {:induction false} NoBusyPath(ms: seq<Manifest>, busy: set<Path>)
    ensures BusyPath(ms, busy).None? <==> Listed(ms) !! busy
    decreases |ms|
  {
    if ms != [] {
      NoBusyPath(ms[1..], busy);
      NoBusyEntry(ms[0], 0, busy);
      PathsNotBusy(ms[0], busy);
    }
  }

  lemma PathsNotBusy(m: Manifest, busy: set<Path>)
    ensures m.Paths() !! busy <==> forall j :: 0 <= j < |m.entries| ==> m.Abs(j) !in busy
  {
    forall j | 0 <= j < |m.entries| ensures m.Abs(j) in m.Paths() {
    }
    if p :| p in m.Paths() && p in busy {
      var i :| 0 <= i < |m.entries| && m.root + m.entries[i].path == p;
      assert m.Abs(i) in busy;
    }
  }

  // ----- The folders are still the same real directories -------------------------------------------------

  /** The granted folder is where it was, and no parent of a listed path became a link or a file. */
  predicate InPlace(fs: Tree, m: Manifest) {
    && m.root in fs && fs[m.root] == Dir
    && forall i :: 0 <= i < |m.entries| ==> RelParentsOk(fs, m.root, m.entries[i].path)
  }

  method CheckRoots(fs: Tree, ms: seq<Manifest>) returns (ok: bool)
    requires Wf(fs) && SoundSteps(ms)
    ensures ok == forall k :: 0 <= k < |ms| ==> InPlace(fs, ms[k])
  {
    for k := 0 to |ms|
      invariant forall j :: 0 <= j < k ==> InPlace(fs, ms[j])
    {
      var m := ms[k];
      if !(m.root in fs && fs[m.root] == Dir) {
        assert !InPlace(fs, ms[k]);
        return false;
      }
      for i := 0 to |m.entries|
        invariant forall j :: 0 <= j < i ==> RelParentsOk(fs, m.root, m.entries[j].path)
      {
        StoredPathResolves(fs, m.root, m.entries[i].path);
        var res := Resolve(fs, m.root, Normals(m.root), Given(false, Normals(m.entries[i].path)));
        if res.Err? {
          assert !InPlace(fs, ms[k]);
          return false;
        }
      }
    }
    return true;
  }

  lemma InPlaceHasRealParents(fs: Tree, m: Manifest)
    requires Wf(fs) && InPlace(fs, m)
    ensures forall q :: q in m.Paths() ==> ParentsOk(fs, q)
  {
    forall q | q in m.Paths() ensures ParentsOk(fs, q) {
      var i :| 0 <= i < |m.entries| && m.root + m.entries[i].path == q;
      AcceptedHasRealParents(fs, m.root, m.entries[i].path);
    }
  }

  lemma {:induction false} AllInPlace(fs: Tree, ms: seq<Manifest>)
    requires Wf(fs) && forall k :: 0 <= k < |ms| ==> InPlace(fs, ms[k])
    ensures forall q :: q in Listed(ms) ==> ParentsOk(fs, q)
    decreases |ms|
  {
    if ms != [] {
      InPlaceHasRealParents(fs, ms[0]);
      AllInPlace(fs, ms[1..]);
    }
  }

  // ----- The virtual view ----------------------------------------------------------------------------------

  lemma {:induction false} CleansAreNotChecked(
      fs: Tree, virt: map<Path, Fingerprint>, m: Manifest, left: nat, rest: seq<Action>)
    requires left <= |m.createdDirs|
    ensures Preflight(fs, virt, Cleans(m, left) + rest) == Preflight(fs, virt, rest)
    decreases left
  {
    if left == 0 {
      assert Cleans(m, left) + rest == rest;
    } else {
      assert (Cleans(m, left) + rest)[1..] == Cleans(m, left - 1) + rest;
      CleansAreNotChecked(fs, virt, m, left - 1, rest);
    }
  }

  /** The outcome of a check of which part is done: the clashes found so far come first. */
  function After(found: seq<Clash>, rest: Result<seq<Clash>, Error>): (r: Result<seq<Clash>, Error>) {
    match rest
    case Err(e) => Err(e)
    case Ok(more) => Ok(found + more)
  }

  lemma NothingFoundYet(rest: Result<seq<Clash>, Error>)
    ensures After([], rest) == rest
  {
    if rest.Ok? {
      assert [] + rest.value == rest.value;
    }
  }

  lemma OneEntryChecked(
      fs: Tree, virt: map<Path, Fingerprint>, found: seq<Clash>, m: Manifest, i: nat, rest: seq<Action>)
    requires i < |m.entries|
    ensures var e := m.entries[i];
            var total := After(found, Preflight(fs, virt, Puts(m, i) + rest));
            match Seen(fs, virt, m.Abs(i))
            case Err(err) => total == Err(err)
            case Ok(cur) =>
              var before := e.before.Fingerprint();
              var found1 := if cur != before && cur != e.Post() then found + [Clash(m.seqNo, e.path, cur)] else found;
              total == After(found1, Preflight(fs, virt[m.Abs(i) := before], Puts(m, i + 1) + rest))
  {
    var acts := Puts(m, i) + rest;
    assert acts[0] == Put(m.seqNo, m.root, m.entries[i]) && acts[1..] == Puts(m, i + 1) + rest;
    var e := m.entries[i];
    if Seen(fs, virt, m.Abs(i)).Ok? {
      var cur, before := Seen(fs, virt, m.Abs(i)).value, e.before.Fingerprint();
      var more := Preflight(fs, virt[m.Abs(i) := before], acts[1..]);
      if more.Ok? {
        var clash := Clash(m.seqNo, e.path, cur);
        assert found + ([clash] + more.value) == found + [clash] + more.value;
      }
    }
  }

  /** The check of one step's entries: the clashes found, and the view for what comes after. */
  method CheckEntries(fs: Tree, m: Manifest, virt0: map<Path, Fingerprint>, found0: seq<Clash>, ghost rest: seq<Action>)
    returns (r: Result<(map<Path, Fingerprint>, seq<Clash>), Error>)
    ensures var total := After(found0, Preflight(fs, virt0, Puts(m, 0) + rest));
            match r
            case Err(e) => total == Err(e)
            case Ok((virt, found)) => total == After(found, Preflight(fs, virt, rest))
  {
    var virt, conflicts := virt0, found0;
    ghost var total := After(found0, Preflight(fs, virt0, Puts(m, 0) + rest));
    for i := 0 to |m.entries|
      invariant total == After(conflicts, Preflight(fs, virt, Puts(m, i) + rest))
    {
      OneEntryChecked(fs, virt, conflicts, m, i, rest);
      var e := m.entries[i];
      var cur :- Seen(fs, virt, m.Abs(i));
      var before := e.before.Fingerprint();
      if cur != before && cur != e.Post() {
        conflicts := conflicts + [Clash(m.seqNo, e.path, cur)];
      }
      virt := virt[m.Abs(i) := before];
    }
    assert Puts(m, |m.entries|) + rest == rest;
    return Ok((virt, conflicts));
  }

  method CheckClashes(fs: Tree, ms: seq<Manifest>) returns (r: Result<seq<Clash>, Error>)
    ensures r == Preflight(fs, map[], Actions(ms))
  {
    var virt: map<Path, Fingerprint> := map[];
    var conflicts: seq<Clash> := [];
    assert ms[0..] == ms;
    NothingFoundYet(Preflight(fs, map[], Actions(ms)));
    for k := 0 to |ms|
      invariant Preflight(fs, map[], Actions(ms)) == After(conflicts, Preflight(fs, virt, Actions(ms[k..])))
    {
      ghost var later := Actions(ms[k + 1..]);
      ghost var cleans := Cleans(ms[k], |ms[k].createdDirs|);
      assert ms[k..][1..] == ms[k + 1..];
      assert Actions(ms[k..]) == Puts(ms[k], 0) + (cleans + later);
      var checked :- CheckEntries(fs, ms[k], virt, conflicts, cleans + later);
      virt, conflicts := checked.0, checked.1;
      CleansAreNotChecked(fs, virt, ms[k], |ms[k].createdDirs|, later);
    }
    assert conflicts + [] == conflicts;
    return Ok(conflicts);
  }

  method CheckBlobs(seen: BlobStore, ms: seq<Manifest>) returns (ok: bool)
    ensures ok == forall k :: 0 <= k < |ms| ==> StepBlobsVerify(seen, ms[k])
  {
    for k := 0 to |ms|
      invariant forall j :: 0 <= j < k ==> StepBlobsVerify(seen, ms[j])
    {
      for i := 0 to |ms[k].entries|
        invariant forall j :: 0 <= j < i && ms[k].entries[j].before.WasFile? ==>
                    BlobVerifies(seen, ms[k].entries[j].before.blob)
      {
        if ms[k].entries[i].before.WasFile? && !BlobVerifies(seen, ms[k].entries[i].before.blob) {
          assert !StepBlobsVerify(seen, ms[k]);
          return false;
        }
      }
    }
    return true;
  }

  // ----- The whole check, and what it gives -----------------------------------------------------------------

  /** Everything that can refuse an undo before anything is touched. `seen` is what reading the blob files
      gives now. */
  predicate Passes(fs: Tree, seen: BlobStore, busy: set<Path>, ms: seq<Manifest>) {
    && BusyPath(ms, busy).None?
    && (forall k :: 0 <= k < |ms| ==> InPlace(fs, ms[k]))
    && Preflight(fs, map[], Actions(ms)) == Ok([])
    && (forall k :: 0 <= k < |ms| ==> StepBlobsVerify(seen, ms[k]))
  }

  method CheckAll(fs: Tree, seen: BlobStore, busy: set<Path>, ms: seq<Manifest>) returns (r: Result<(), Error>)
    requires Wf(fs) && SoundSteps(ms)
    ensures r.Ok? <==> Passes(fs, seen, busy, ms)
    ensures BusyPath(ms, busy).Some? ==> r == Err(Error.Busy(BusyPath(ms, busy).value))
    ensures r.Err? && r.error.Conflict? ==> Preflight(fs, map[], Actions(ms)) == Ok(r.error.clashes)
  {
    var taken := CheckBusy(ms, busy);
    if taken.Some? {
      return Err(Error.Busy(taken.value));
    }
    var inPlace := CheckRoots(fs, ms);
    if !inPlace {
      return Err(PathRefused);
    }
    var clashes := CheckClashes(fs, ms);
    if clashes.Err? {
      PreflightErrors(fs, map[], Actions(ms));
      return Err(clashes.error);
    }
    if clashes.value != [] {
      return Err(Conflict(clashes.value));
    }
    var verified := CheckBlobs(seen, ms);
    if !verified {
      return Err(Corrupt);
    }
    return Ok(());
  }

  lemma {:induction false} PreflightErrors(fs: Tree, virt: map<Path, Fingerprint>, acts: seq<Action>)
    ensures Preflight(fs, virt, acts).Err? ==> Preflight(fs, virt, acts).error == Io
    decreases |acts|
  {
    if acts != [] {
      if acts[0].Put? {
        PreflightErrors(fs, virt[acts[0].At() := acts[0].entry.before.Fingerprint()], acts[1..]);
      } else {
        PreflightErrors(fs, virt, acts[1..]);
      }
    }
  }

  /** The check leaves one thing open: whether a listed path is a directory now. If none is, the undo runs
      to its end; if one is, it stops there. */
  lemma CheckedUndoRuns(fs: Tree, seen: BlobStore, busy: set<Path>, ms: seq<Manifest>)
    requires Wf(fs) && SoundSteps(ms) && PrefixFree(Listed(ms)) && Passes(fs, seen, busy, ms)
    ensures Listed(ms) !! busy
    ensures CheckedUndo(fs, seen, Actions(ms)).Ok? <==> forall q :: q in Listed(ms) && q in fs ==> fs[q] != Dir
  {
    NoBusyPath(ms, busy);
    AllInPlace(fs, ms);
    StepsConcern(ms);
    StepsBlobs(seen, ms);
    forall q | q in Listed(ms) ensures LastPut(Actions(ms), q).Some? {
      ListedIsPutBack(ms, q);
    }
    RunsExactlyWithoutDirectories(fs, seen, Actions(ms), Listed(ms));
  }

  // ----- Restoring ----------------------------------------------------------------------------------------

  /** The tree that actions leave, whether they run to the end or stop at one that fails. */
  function GetsTo(fs: Tree, blobs: BlobStore, acts: seq<Action>): (g: Tree)
    decreases |acts|
  {
    if acts == [] then fs else
      match Act(fs, blobs, acts[0])
      case Err(_) => fs
      case Ok(g) => GetsTo(g, blobs, acts[1..])
  }

  lemma {:induction false} GetsToConcat(fs: Tree, blobs: BlobStore, a: seq<Action>, b: seq<Action>)
    ensures GetsTo(fs, blobs, a + b) ==
            if Perform(fs, blobs, a).Ok? then GetsTo(Perform(fs, blobs, a).value, blobs, b) else GetsTo(fs, blobs, a)
    decreases |a|
  {
    if a == [] {
      assert a + b == b;
    } else {
      assert (a + b)[1..] == a[1..] + b;
      if Act(fs, blobs, a[0]).Ok? {
        GetsToConcat(Act(fs, blobs, a[0]).value, blobs, a[1..], b);
      }
    }
  }

  /** How many steps are undone before the undo ends or stops. */
  function StepsDone(fs: Tree, blobs: BlobStore, ms: seq<Manifest>): (n: nat)
    ensures n <= |ms|
    decreases |ms|
  {
    if ms == [] then 0 else
      match Perform(fs, blobs, StepActions(ms[0]))
      case Err(_) => 0
      case Ok(g) => 1 + StepsDone(g, blobs, ms[1..])
  }

  lemma {:induction false} DoneExactly(fs: Tree, blobs: BlobStore, ms: seq<Manifest>, n: nat)
    requires n <= |ms|
    ensures n <= StepsDone(fs, blobs, ms) <==> Perform(fs, blobs, Actions(ms[..n])).Ok?
    decreases |ms|
  {
    if n > 0 {
      var acts := StepActions(ms[0]);
      assert ms[..n][0] == ms[0] && ms[..n][1..] == ms[1..][..n - 1];
      if Perform(fs, blobs, acts).Ok? {
        PerformConcat(fs, blobs, acts, Actions(ms[..n][1..]));
        DoneExactly(Perform(fs, blobs, acts).value, blobs, ms[1..], n - 1);
      } else {
        PerformConcatErr(fs, blobs, acts, Actions(ms[..n][1..]));
      }
    }
  }

  /** With `k` steps undone, `g` is the tree, and what is left to do is what is left of the steps. */
  predicate Restored(fs: Tree, blobs: BlobStore, ms: seq<Manifest>, k: nat, g: Tree)
    requires k <= |ms|
  {
    && Perform(fs, blobs, Actions(ms)) == Perform(g, blobs, Actions(ms[k..]))
    && GetsTo(fs, blobs, Actions(ms)) == GetsTo(g, blobs, Actions(ms[k..]))
    && StepsDone(fs, blobs, ms) == k + StepsDone(g, blobs, ms[k..])
  }

  lemma RestoredEnds(fs: Tree, blobs: BlobStore, ms: seq<Manifest>, g: Tree)
    ensures Restored(fs, blobs, ms, 0, fs)
    ensures Restored(fs, blobs, ms, |ms|, g) ==>
              Perform(fs, blobs, Actions(ms)) == Ok(g) && GetsTo(fs, blobs, Actions(ms)) == g && StepsDone(fs, blobs, ms) == |ms|
  {
    assert ms[0..] == ms && ms[|ms|..] == [];
  }

  lemma OneStepMore(fs: Tree, blobs: BlobStore, ms: seq<Manifest>, k: nat, g: Tree)
    requires k < |ms| && Restored(fs, blobs, ms, k, g)
    ensures match Perform(g, blobs, StepActions(ms[k]))
            case Ok(h) => Restored(fs, blobs, ms, k + 1, h)
            case Err(e) =>
              && Perform(fs, blobs, Actions(ms)) == Err(e) && StepsDone(fs, blobs, ms) == k
              && GetsTo(fs, blobs, Actions(ms)) == GetsTo(g, blobs, StepActions(ms[k]))
  {
    var acts, rest := StepActions(ms[k]), Actions(ms[k + 1..]);
    assert ms[k..][0] == ms[k] && ms[k..][1..] == ms[k + 1..];
    assert Actions(ms[k..]) == acts + rest;
    GetsToConcat(g, blobs, acts, rest);
    if Perform(g, blobs, acts).Ok? {
      PerformConcat(g, blobs, acts, rest);
    } else {
      PerformConcatErr(g, blobs, acts, rest);
    }
  }

  /** The check leaves one thing open, and the undo stops exactly there: at the first step that lists a path
      which is a directory now. */
  lemma StopsAtFirstDirectory(fs: Tree, seen: BlobStore, busy: set<Path>, ms: seq<Manifest>, n: nat)
    requires Wf(fs) && SoundSteps(ms) && PrefixFree(Listed(ms)) && Passes(fs, seen, busy, ms) && n <= |ms|
    ensures n <= StepsDone(fs, seen, ms) <==> forall q :: q in Listed(ms[..n]) && q in fs ==> fs[q] != Dir
  {
    DoneExactly(fs, seen, ms, n);
    ListedFewer(ms, n);
    AllInPlace(fs, ms[..n]);
    StepsConcern(ms[..n]);
    StepsBlobs(seen, ms[..n]);
    forall q | q in Listed(ms[..n]) ensures LastPut(Actions(ms[..n]), q).Some? {
      ListedIsPutBack(ms[..n], q);
    }
    RunsExactlyWithoutDirectories(fs, seen, Actions(ms[..n]), Listed(ms[..n]));
  }

  lemma {:induction false} ListedFewer(ms: seq<Manifest>, n: nat)
    requires n <= |ms|
    ensures Listed(ms[..n]) <= Listed(ms)
    decreases |ms|
  {
    if n > 0 {
      assert ms[..n][0] == ms[0] && ms[..n][1..] == ms[1..][..n - 1];
      ListedFewer(ms[1..], n - 1);
    }
  }

  method RestoreEntries(fs: Tree, seen: BlobStore, m: Manifest) returns (r: Result<(), Error>, g: Tree)
    ensures Perform(fs, seen, Puts(m, 0)) == if r.Ok? then Ok(g) else Err(r.error)
    ensures g == GetsTo(fs, seen, Puts(m, 0))
  {
    g := fs;
    for i := 0 to |m.entries|
      invariant Perform(fs, seen, Puts(m, 0)) == Perform(g, seen, Puts(m, i))
      invariant GetsTo(fs, seen, Puts(m, 0)) == GetsTo(g, seen, Puts(m, i))
    {
      var e := m.entries[i];
      assert Puts(m, i)[0] == Put(m.seqNo, m.root, e) && Puts(m, i)[1..] == Puts(m, i + 1);
      var restored := Restore(g, seen, m.Abs(i), e.before);
      if restored.Err? {
        return Err(restored.error), g;
      }
      g := restored.value;
    }
    return Ok(()), g;
  }

  method RemoveDirs(fs: Tree, ghost seen: BlobStore, m: Manifest) returns (g: Tree)
    ensures Perform(fs, seen, Cleans(m, |m.createdDirs|)) == Ok(g)
    ensures g == GetsTo(fs, seen, Cleans(m, |m.createdDirs|))
  {
    g := fs;
    for left := |m.createdDirs| downto 0
      invariant Perform(fs, seen, Cleans(m, |m.createdDirs|)) == Perform(g, seen, Cleans(m, left))
      invariant GetsTo(fs, seen, Cleans(m, |m.createdDirs|)) == GetsTo(g, seen, Cleans(m, left))
    {
      var d := m.root + m.createdDirs[left];
      assert Cleans(m, left + 1)[0] == Clean(d) && Cleans(m, left + 1)[1..] == Cleans(m, left);
      g := RemoveDirIfEmpty(g, d);
    }
  }

  lemma {:induction false} PerformConcatErr(fs: Tree, blobs: BlobStore, a: seq<Action>, b: seq<Action>)
    requires Perform(fs, blobs, a).Err?
    ensures Perform(fs, blobs, a + b) == Perform(fs, blobs, a)
    decreases |a|
  {
    if a != [] {
      assert (a + b)[1..] == a[1..] + b;
      if Act(fs, blobs, a[0]).Ok? {
        PerformConcatErr(Act(fs, blobs, a[0]).value, blobs, a[1..], b);
      }
    }
  }

  /** Restores one step. A blob that fails to verify could leave the parents made for its file, so nothing is
      said of the tree then. */
  method UndoOne(fs: Tree, seen: BlobStore, m: Manifest) returns (r: Result<(), Error>, g: Tree)
    ensures Perform(fs, seen, StepActions(m)) == if r.Ok? then Ok(g) else Err(r.error)
    ensures StepBlobsVerify(seen, m) ==> g == GetsTo(fs, seen, StepActions(m))
  {
    r, g := RestoreEntries(fs, seen, m);
    GetsToConcat(fs, seen, Puts(m, 0), Cleans(m, |m.createdDirs|));
    if r.Err? {
      PerformConcatErr(fs, seen, Puts(m, 0), Cleans(m, |m.createdDirs|));
      return;
    }
    PerformConcat(fs, seen, Puts(m, 0), Cleans(m, |m.createdDirs|));
    g := RemoveDirs(g, seen, m);
  }
}
