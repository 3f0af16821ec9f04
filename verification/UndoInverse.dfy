/** Undo as an inverse: which states come back, and what happens to directories. */
module UndoInverse {
  import opened Wrappers
  import opened FileTree
  import opened Steps
  import opened Undo
  import opened UndoTheorems

  // ----- Which recorded state wins -----------------------------------------------------------------------

  ghost predicate SoundSteps(ms: seq<Manifest>) {
    forall i :: 0 <= i < |ms| ==> ms[i].Sound()
  }

  /** Every path some step lists. */
  function Listed(ms: seq<Manifest>): (ps: set<Path>) {
    if ms == [] then {} else ms[0].Paths() + Listed(ms[1..])
  }

  lemma {:induction false} LastPutConcat(a: seq<Action>, b: seq<Action>, q: Path)
    ensures LastPut(a + b, q) == if LastPut(b, q).Some? then LastPut(b, q) else LastPut(a, q)
    decreases |a|
  {
    if a == [] {
      assert a + b == b;
    } else {
      assert (a + b)[1..] == a[1..] + b;
      LastPutConcat(a[1..], b, q);
    }
  }

  lemma {:induction false} LastPutOfCleans(m: Manifest, left: nat, q: Path)
    requires left <= |m.createdDirs|
    ensures LastPut(Cleans(m, left), q).None?
    decreases left
  {
    if left > 0 {
      LastPutOfCleans(m, left - 1, q);
      assert Cleans(m, left)[1..] == Cleans(m, left - 1);
    }
  }

  lemma {:induction false} LastPutAt(acts: seq<Action>, q: Path, j: nat)
    requires j < |acts| && acts[j].Put? && acts[j].At() == q
    requires forall k :: j < k < |acts| ==> !(acts[k].Put? && acts[k].At() == q)
    ensures LastPut(acts, q) == Some(acts[j].entry.before)
    decreases |acts|
  {
    if j > 0 {
      LastPutAt(acts[1..], q, j - 1);
    } else {
      LastPutNowhere(acts[1..], q);
    }
  }

  lemma {:induction false} LastPutNowhere(acts: seq<Action>, q: Path)
    requires forall k :: 0 <= k < |acts| ==> !(acts[k].Put? && acts[k].At() == q)
    ensures LastPut(acts, q).None?
    decreases |acts|
  {
    if acts != [] {
      LastPutNowhere(acts[1..], q);
    }
  }

  lemma {:induction false} PutsAre(m: Manifest, k: nat)
    requires k <= |m.entries|
    ensures |Puts(m, k)| == |m.entries| - k
    ensures forall i :: 0 <= i < |m.entries| - k ==> Puts(m, k)[i] == Put(m.seqNo, m.root, m.entries[k + i])
    decreases |m.entries| - k
  {
    if k < |m.entries| {
      PutsAre(m, k + 1);
    }
  }

  lemma LastPutOfPuts(m: Manifest, q: Path)
    requires m.Sound()
    ensures forall i :: 0 <= i < |m.entries| && m.root + m.entries[i].path == q ==>
                          LastPut(Puts(m, 0), q) == Some(m.entries[i].before)
    ensures (forall i :: 0 <= i < |m.entries| ==> m.root + m.entries[i].path != q) ==> LastPut(Puts(m, 0), q).None?
  {
    var acts := Puts(m, 0);
    PutsAre(m, 0);
    forall i | 0 <= i < |m.entries| && m.root + m.entries[i].path == q
      ensures LastPut(acts, q) == Some(m.entries[i].before)
    {
      forall k | i < k < |acts| ensures acts[k].At() != q {
        SameBelowRoot(m.root, m.entries[i].path, m.entries[k].path);
      }
      LastPutAt(acts, q, i);
    }
    if forall i :: 0 <= i < |m.entries| ==> m.root + m.entries[i].path != q {
      LastPutNowhere(acts, q);
    }
  }

  lemma SameBelowRoot(root: Path, a: Path, b: Path)
    ensures root + a == root + b <==> a == b
  {
    if root + a == root + b {
      assert (root + a)[|root|..] == a && (root + b)[|root|..] == b;
    }
  }

  lemma LastPutOfStep(m: Manifest, q: Path)
    requires m.Sound()
    ensures forall i :: 0 <= i < |m.entries| && m.Abs(i) == q ==> LastPut(StepActions(m), q) == Some(m.entries[i].before)
    ensures q !in m.Paths() ==> LastPut(StepActions(m), q).None?
  {
    LastPutOfPuts(m, q);
    LastPutOfCleans(m, |m.createdDirs|, q);
    LastPutConcat(Puts(m, 0), Cleans(m, |m.createdDirs|), q);
  }

  lemma {:induction false} UnlistedHasNoPut(ms: seq<Manifest>, q: Path)
    requires SoundSteps(ms) && forall j :: 0 <= j < |ms| ==> q !in ms[j].Paths()
    ensures LastPut(Actions(ms), q).None?
    decreases |ms|
  {
    if ms != [] {
      UnlistedHasNoPut(ms[1..], q);
      LastPutOfStep(ms[0], q);
      LastPutConcat(StepActions(ms[0]), Actions(ms[1..]), q);
    }
  }

  /** Steps come newest first, so the last state put back at a path is the one recorded by the oldest
      step that lists it. */
  lemma {:induction false} OldestWins(ms: seq<Manifest>, k: nat, i: nat)
    requires SoundSteps(ms) && k < |ms| && i < |ms[k].entries|
    requires forall j :: k < j < |ms| ==> ms[k].Abs(i) !in ms[j].Paths()
    ensures LastPut(Actions(ms), ms[k].Abs(i)) == Some(ms[k].entries[i].before)
    decreases |ms|
  {
    var q, rest := ms[k].Abs(i), ms[1..];
    LastPutConcat(StepActions(ms[0]), Actions(rest), q);
    if k == 0 {
      LastPutOfStep(ms[0], q);
      UnlistedHasNoPut(rest, q);
    } else {
      assert rest[k - 1] == ms[k];
      forall j | k - 1 < j < |rest| ensures rest[k - 1].Abs(i) !in rest[j].Paths() {
        assert rest[j] == ms[j + 1];
      }
      OldestWins(rest, k - 1, i);
    }
  }

  // ----- The actions concern what the steps list -----------------------------------------------------------

  lemma ConcernConcat(a: seq<Action>, b: seq<Action>, listed: set<Path>)
    requires Concern(a, listed) && Concern(b, listed)
    ensures Concern(a + b, listed)
  {
  }

  lemma ConcernGrows(a: seq<Action>, listed: set<Path>, more: set<Path>)
    requires Concern(a, listed) && listed <= more
    ensures Concern(a, more)
  {
  }

  lemma {:induction false} PutsConcern(m: Manifest, k: nat)
    requires k <= |m.entries| && m.Sound()
    ensures Concern(Puts(m, k), m.Paths())
    decreases |m.entries| - k
  {
    if k < |m.entries| {
      PutsConcern(m, k + 1);
      assert m.Abs(k) in m.Paths();
      ConcernConcat([Put(m.seqNo, m.root, m.entries[k])], Puts(m, k + 1), m.Paths());
    }
  }

  lemma AboveBelowRoot(root: Path, d: Path, p: Path)
    ensures Above(root + d, root + p) <==> Above(d, p)
  {
    if |d| < |p| {
      assert (root + p)[..|root + d|] == root + p[..|d|];
      SameBelowRoot(root, p[..|d|], d);
    }
  }

  lemma CreatedIsAboveListed(m: Manifest, d: Path)
    requires m.Sound() && d in m.createdDirs
    ensures exists q :: q in m.Paths() && Above(m.root + d, q)
  {
    var i :| 0 <= i < |m.entries| && Above(d, m.entries[i].path);
    AboveBelowRoot(m.root, d, m.entries[i].path);
    assert m.Abs(i) in m.Paths();
  }

  lemma {:induction false} CleansConcern(m: Manifest, left: nat)
    requires left <= |m.createdDirs| && m.Sound()
    ensures Concern(Cleans(m, left), m.Paths())
    decreases left
  {
    if left > 0 {
      CleansConcern(m, left - 1);
      assert m.createdDirs[left - 1] in m.createdDirs;
      CreatedIsAboveListed(m, m.createdDirs[left - 1]);
      ConcernConcat([Clean(m.root + m.createdDirs[left - 1])], Cleans(m, left - 1), m.Paths());
    }
  }

  lemma StepConcerns(m: Manifest)
    requires m.Sound()
    ensures Concern(StepActions(m), m.Paths())
  {
    PutsConcern(m, 0);
    CleansConcern(m, |m.createdDirs|);
    ConcernConcat(Puts(m, 0), Cleans(m, |m.createdDirs|), m.Paths());
  }

  lemma {:induction false} StepsConcern(ms: seq<Manifest>)
    requires SoundSteps(ms)
    ensures Concern(Actions(ms), Listed(ms))
    decreases |ms|
  {
    if ms != [] {
      StepConcerns(ms[0]);
      StepsConcern(ms[1..]);
      ConcernGrows(StepActions(ms[0]), ms[0].Paths(), Listed(ms));
      ConcernGrows(Actions(ms[1..]), Listed(ms[1..]), Listed(ms));
      ConcernConcat(StepActions(ms[0]), Actions(ms[1..]), Listed(ms));
    }
  }

  // ----- Undoing a session --------------------------------------------------------------------------------

  /** The files a step would put back can be read back. */
  predicate StepBlobsVerify(blobs: BlobStore, m: Manifest) {
    forall i :: 0 <= i < |m.entries| && m.entries[i].before.WasFile? ==> BlobVerifies(blobs, m.entries[i].before.blob)
  }

  lemma {:induction false} PutsBlobs(blobs: BlobStore, m: Manifest, k: nat)
    requires k <= |m.entries| && StepBlobsVerify(blobs, m)
    ensures BlobsVerify(blobs, Puts(m, k))
    decreases |m.entries| - k
  {
    if k < |m.entries| {
      PutsBlobs(blobs, m, k + 1);
    }
  }

  lemma {:induction false} CleansBlobs(blobs: BlobStore, m: Manifest, left: nat)
    requires left <= |m.createdDirs|
    ensures BlobsVerify(blobs, Cleans(m, left))
    decreases left
  {
    if left > 0 {
      CleansBlobs(blobs, m, left - 1);
    }
  }

  lemma {:induction false} StepsBlobs(blobs: BlobStore, ms: seq<Manifest>)
    requires forall k :: 0 <= k < |ms| ==> StepBlobsVerify(blobs, ms[k])
    ensures BlobsVerify(blobs, Actions(ms))
    decreases |ms|
  {
    if ms != [] {
      PutsBlobs(blobs, ms[0], 0);
      CleansBlobs(blobs, ms[0], |ms[0].createdDirs|);
      StepsBlobs(blobs, ms[1..]);
    }
  }

  lemma {:induction false} ListedHas(ms: seq<Manifest>, k: nat, i: nat)
    requires k < |ms| && i < |ms[k].entries|
    ensures ms[k].Abs(i) in Listed(ms)
    decreases |ms|
  {
    if k == 0 {
      assert ms[0].Abs(i) in ms[0].Paths();
    } else {
      ListedHas(ms[1..], k - 1, i);
    }
  }

  // ----- Undoing one step is exact ----------------------------------------------------------------------------

  /** What `begin_step` recorded about the tree it saw: prior states, and directories that were missing. */
  ghost predicate Captured(fs: Tree, m: Manifest) {
    && (forall i :: 0 <= i < |m.entries| ==> Holds(fs, m.Abs(i), m.entries[i].before))
    && (forall d :: d in m.createdDirs ==> m.root + d !in fs)
  }

  /** However far the step came, and whatever else happened meanwhile: each listed path independently
      holds its prior state, or the intended or recorded one. */
  ghost predicate EachBeforeOrAfter(fs: Tree, m: Manifest) {
    forall i :: 0 <= i < |m.entries| ==>
      var now := FingerprintNow(fs, m.Abs(i));
      now == Ok(m.entries[i].before.Fingerprint()) || now == Ok(m.entries[i].Post())
  }

  function Created(m: Manifest): (ds: set<Path>) {
    set d | d in m.createdDirs :: m.root + d
  }

  /** Something below `d` that the step did not put there. */
  ghost predicate OthersBelow(fs: Tree, m: Manifest, d: Path) {
    exists p :: p in fs && Above(d, p) && p !in m.Paths() && (p !in Created(m) || fs[p] != Dir)
  }

  /** The created directories in the order undo tries to remove them. */
  function CleanDirs(m: Manifest, left: nat): (ds: seq<Path>)
    requires left <= |m.createdDirs|
  {
    if left == 0 then [] else [m.root + m.createdDirs[left - 1]] + CleanDirs(m, left - 1)
  }

  lemma {:induction false} CleansRemove(fs: Tree, blobs: BlobStore, m: Manifest, left: nat)
    requires left <= |m.createdDirs|
    ensures Perform(fs, blobs, Cleans(m, left)) == Ok(RemoveEmptyDirs(fs, CleanDirs(m, left)))
    decreases left
  {
    if left > 0 {
      var d := m.root + m.createdDirs[left - 1];
      assert Cleans(m, left)[1..] == Cleans(m, left - 1) && CleanDirs(m, left)[1..] == CleanDirs(m, left - 1);
      CleansRemove(RemoveDirIfEmpty(fs, d), blobs, m, left - 1);
    }
  }

  lemma {:induction false} CleanDirsAre(m: Manifest, left: nat)
    requires left <= |m.createdDirs|
    ensures |CleanDirs(m, left)| == left
    ensures forall i :: 0 <= i < left ==> CleanDirs(m, left)[i] == m.root + m.createdDirs[left - 1 - i]
    decreases left
  {
    if left > 0 {
      CleanDirsAre(m, left - 1);
    }
  }

  lemma CleanDirsDeepestFirst(m: Manifest)
    requires m.Sound()
    ensures var ds := CleanDirs(m, |m.createdDirs|);
            DeepestFirst(ds) && (forall d :: d in ds ==> d != []) && forall d :: d in ds <==> d in Created(m)
  {
    var n := |m.createdDirs|;
    var ds := CleanDirs(m, n);
    CleanDirsAre(m, n);
    forall i, j | 0 <= i < j < n ensures |ds[j]| <= |ds[i]| && ds[i] != ds[j] {
      SameBelowRoot(m.root, m.createdDirs[n - 1 - i], m.createdDirs[n - 1 - j]);
    }
    forall d | d in ds ensures d != [] {
      var i :| 0 <= i < n && ds[i] == d;
      assert m.createdDirs[n - 1 - i] in m.createdDirs;
    }
    forall d | d in Created(m) ensures d in ds {
      var i :| 0 <= i < n && m.root + m.createdDirs[i] == d;
      assert ds[n - 1 - i] == d;
    }
  }

  /** A path that was there before the step lies below none of the directories it made. */
  lemma NothingOldBelowCreated(fs: Tree, m: Manifest, d: Path, p: Path)
    requires Wf(fs) && Captured(fs, m) && d in Created(m) && p in fs
    ensures p != d && !Above(d, p)
  {
    if Above(d, p) {
      AboveIsDir(fs, d, p);
    }
  }

  lemma CreatedIsNotListed(m: Manifest, d: Path)
    requires m.Sound() && PrefixFree(m.Paths()) && d in Created(m)
    ensures d !in m.Paths()
  {
    var e :| e in m.createdDirs && m.root + e == d;
    CreatedIsAboveListed(m, e);
  }

  /** What the restores of a step leave behind, before directories are removed. */
  ghost predicate EntriesBack(fs0: Tree, fs1: Tree, h: Tree, m: Manifest) {
    && Wf(h)
    && (forall q :: q in m.Paths() ==> (q in h <==> q in fs0) && (q in fs0 ==> h[q] == fs0[q]))
    && (forall q :: q in fs1 && q !in m.Paths() ==> q in h && h[q] == fs1[q])
    && (forall q :: q in h && q !in m.Paths() && q !in fs1 ==> h[q] == Dir && q in fs0 && fs0[q] == Dir)
  }

  lemma ListedComesBack(fs0: Tree, fs1: Tree, h: Tree, m: Manifest, q: Path)
    requires m.Sound() && Captured(fs0, m) && PutBack(fs1, h, Puts(m, 0), m.Paths()) && q in m.Paths()
    ensures (q in h <==> q in fs0) && (q in fs0 ==> h[q] == fs0[q])
  {
    var i :| 0 <= i < |m.entries| && m.root + m.entries[i].path == q;
    LastPutOfPuts(m, q);
    assert Holds(h, q, m.entries[i].before);
    assert Holds(fs0, m.Abs(i), m.entries[i].before);
  }

  lemma MadeOnlyWhatWasThere(fs0: Tree, m: Manifest, q: Path)
    requires Wf(fs0) && Captured(fs0, m) && MadeFor(Puts(m, 0), q)
    ensures q in fs0 && fs0[q] == Dir
  {
    var acts := Puts(m, 0);
    PutsAre(m, 0);
    var i :| 0 <= i < |acts| && acts[i].Put? && !acts[i].entry.before.WasAbsent? && Above(q, acts[i].At());
    assert Holds(fs0, m.Abs(i), m.entries[i].before);
    AboveIsDir(fs0, q, m.Abs(i));
  }

  lemma PutsFrame(fs1: Tree, h: Tree, m: Manifest, q: Path)
    requires Frame(fs1, h, Puts(m, 0), m.Paths()) && q !in m.Paths()
    ensures q in fs1 ==> q in h && h[q] == fs1[q]
    ensures q in h && q !in fs1 ==> h[q] == Dir && MadeFor(Puts(m, 0), q)
  {
    PutsAre(m, 0);
  }

  lemma EntriesComeBack(fs0: Tree, fs1: Tree, blobs: BlobStore, m: Manifest)
    requires Wf(fs0) && m.Sound() && PrefixFree(m.Paths()) && Captured(fs0, m) && StepBlobsVerify(blobs, m)
    requires Restorable(fs1, m.Paths())
    ensures Perform(fs1, blobs, Puts(m, 0)).Ok?
    ensures EntriesBack(fs0, fs1, Perform(fs1, blobs, Puts(m, 0)).value, m)
  {
    PutsConcern(m, 0);
    PutsBlobs(blobs, m, 0);
    SequenceRuns(fs1, map[], fs1, blobs, Puts(m, 0), m.Paths());
    var h := Perform(fs1, blobs, Puts(m, 0)).value;
    forall q | q in m.Paths() ensures (q in h <==> q in fs0) && (q in fs0 ==> h[q] == fs0[q]) {
      ListedComesBack(fs0, fs1, h, m, q);
    }
    forall q | q in fs1 && q !in m.Paths() ensures q in h && h[q] == fs1[q] {
      PutsFrame(fs1, h, m, q);
    }
    forall q | q in h && q !in m.Paths() && q !in fs1 ensures h[q] == Dir && q in fs0 && fs0[q] == Dir {
      PutsFrame(fs1, h, m, q);
      MadeOnlyWhatWasThere(fs0, m, q);
    }
  }

  lemma OthersBelowAfterEntries(fs0: Tree, fs1: Tree, h: Tree, m: Manifest, d: Path)
    requires Wf(fs0) && m.Sound() && PrefixFree(m.Paths()) && Captured(fs0, m)
    requires EntriesBack(fs0, fs1, h, m) && d in Created(m)
    ensures d in h <==> d in fs1
    ensures d in h ==> h[d] == fs1[d]
    ensures ForeignBelow(h, d, CleanDirs(m, |m.createdDirs|)) <==> OthersBelow(fs1, m, d)
  {
    var dirs := CleanDirs(m, |m.createdDirs|);
    CleanDirsDeepestFirst(m);
    CreatedIsNotListed(m, d);
    if ForeignBelow(h, d, dirs) {
      var p :| p in h && Above(d, p) && Foreign(h, p, dirs);
      if p in fs0 {
        NothingOldBelowCreated(fs0, m, d, p);
      }
      assert p in fs1 && p !in m.Paths();
    }
    if OthersBelow(fs1, m, d) {
      var p :| p in fs1 && Above(d, p) && p !in m.Paths() && (p !in Created(m) || fs1[p] != Dir);
      assert p in h && Foreign(h, p, dirs);
    }
  }

  /** `g` is `fs1` with the step `m` taken back: every listed path is exactly what it was in `fs0`,
      content and mode; a directory made for the step is still there exactly when something else is below
      it (or in its place); all the rest is as in `fs1`, except that directories a restored path lies in
      were made again. */
  ghost predicate TakenBack(fs0: Tree, fs1: Tree, g: Tree, m: Manifest) {
    && (forall q :: q in m.Paths() ==> (q in g <==> q in fs0) && (q in fs0 ==> g[q] == fs0[q]))
    && (forall d :: d in Created(m) ==>
          (d in g <==> d in fs1 && (fs1[d] != Dir || OthersBelow(fs1, m, d))) && (d in g ==> g[d] == fs1[d]))
    && (forall q :: q in fs1 && q !in m.Paths() && q !in Created(m) ==> q in g && g[q] == fs1[q])
    && (forall q :: q in g && q !in m.Paths() && q !in fs1 ==> g[q] == Dir && q in fs0 && fs0[q] == Dir)
  }

  lemma DirectoriesGo(fs0: Tree, fs1: Tree, h: Tree, m: Manifest)
    requires Wf(fs0) && m.Sound() && PrefixFree(m.Paths()) && Captured(fs0, m)
    requires EntriesBack(fs0, fs1, h, m)
    ensures TakenBack(fs0, fs1, RemoveEmptyDirs(h, CleanDirs(m, |m.createdDirs|)), m)
  {
    var dirs := CleanDirs(m, |m.createdDirs|);
    CleanDirsDeepestFirst(m);
    RemoveEmptyDirsFrame(h, dirs);
    var g := RemoveEmptyDirs(h, dirs);
    forall d | d in Created(m)
      ensures d in g <==> d in fs1 && (fs1[d] != Dir || OthersBelow(fs1, m, d))
      ensures d in g ==> g[d] == fs1[d]
    {
      OthersBelowAfterEntries(fs0, fs1, h, m, d);
      RemovedExactlyWhenNothingForeign(h, dirs, d);
    }
    forall q | q in m.Paths() ensures (q in g <==> q in fs0) && (q in fs0 ==> g[q] == fs0[q]) {
      if q in Created(m) {
        CreatedIsNotListed(m, q);
      }
    }
  }

  /** A step that wrote, deleted or renamed paths, or was interrupted with each path independently in its
      prior or its intended state, is taken back. */
  lemma StepUndoIsExact(fs0: Tree, fs1: Tree, blobs: BlobStore, m: Manifest)
    requires Wf(fs0) && m.Sound() && PrefixFree(m.Paths()) && Captured(fs0, m) && StepBlobsVerify(blobs, m)
    requires Restorable(fs1, m.Paths())
    ensures CheckedUndo(fs1, blobs, StepActions(m)).Ok? <==> EachBeforeOrAfter(fs1, m)
    ensures CheckedUndo(fs1, blobs, StepActions(m)).Ok? ==>
              TakenBack(fs0, fs1, CheckedUndo(fs1, blobs, StepActions(m)).value, m)
  {
    StepPassesCheck(fs1, blobs, m);
    EntriesComeBack(fs0, fs1, blobs, m);
    var h := Perform(fs1, blobs, Puts(m, 0)).value;
    PerformConcat(fs1, blobs, Puts(m, 0), Cleans(m, |m.createdDirs|));
    CleansRemove(h, blobs, m, |m.createdDirs|);
    DirectoriesGo(fs0, fs1, h, m);
  }

  /** Each path is looked at once in a step, so the check is made against the tree itself. */
  lemma StepPassesCheck(fs: Tree, blobs: BlobStore, m: Manifest)
    requires m.Sound() && PrefixFree(m.Paths()) && StepBlobsVerify(blobs, m)
    requires Restorable(fs, m.Paths())
    ensures Preflight(fs, map[], StepActions(m)).Ok?
    ensures Preflight(fs, map[], StepActions(m)) == Ok([]) <==> EachBeforeOrAfter(fs, m)
  {
    PreflightOfStep(fs, map[], m, 0);
  }

  /** A step lists each path once. */
  lemma OthersNotSeen(virt: map<Path, Fingerprint>, m: Manifest, k: nat)
    requires m.Sound() && k < |m.entries| && forall i :: k <= i < |m.entries| ==> m.Abs(i) !in virt
    ensures forall i :: k < i < |m.entries| ==> m.Abs(i) !in virt[m.Abs(k) := m.entries[k].before.Fingerprint()]
  {
    forall i | k < i < |m.entries| ensures m.Abs(i) != m.Abs(k) {
      SameBelowRoot(m.root, m.entries[i].path, m.entries[k].path);
    }
  }

  lemma {:induction false} PreflightOfStep(fs: Tree, virt: map<Path, Fingerprint>, m: Manifest, k: nat)
    requires m.Sound() && k <= |m.entries| && Restorable(fs, m.Paths())
    requires forall i :: k <= i < |m.entries| ==> m.Abs(i) !in virt
    ensures var r := Preflight(fs, virt, Puts(m, k) + Cleans(m, |m.createdDirs|));
            && r.Ok?
            && (r == Ok([]) <==> forall i :: k <= i < |m.entries| ==>
                  var now := FingerprintNow(fs, m.Abs(i));
                  now == Ok(m.entries[i].before.Fingerprint()) || now == Ok(m.entries[i].Post()))
    decreases |m.entries| - k
  {
    var cleans := Cleans(m, |m.createdDirs|);
    if k == |m.entries| {
      assert Puts(m, k) + cleans == cleans;
      PreflightOfCleans(fs, virt, m, |m.createdDirs|);
    } else {
      var put := Put(m.seqNo, m.root, m.entries[k]);
      var acts := Puts(m, k) + cleans;
      assert acts[0] == put && acts[1..] == Puts(m, k + 1) + cleans;
      var v := virt[put.At() := put.entry.before.Fingerprint()];
      OthersNotSeen(virt, m, k);
      PreflightOfStep(fs, v, m, k + 1);
      assert m.Abs(k) in m.Paths();
      assert Seen(fs, virt, put.At()) == FingerprintNow(fs, m.Abs(k));
      PreflightPeels(fs, virt, acts);
    }
  }

  lemma {:induction false} PreflightOfCleans(fs: Tree, virt: map<Path, Fingerprint>, m: Manifest, left: nat)
    requires left <= |m.createdDirs|
    ensures Preflight(fs, virt, Cleans(m, left)) == Ok([])
    decreases left
  {
    if left > 0 {
      assert Cleans(m, left)[1..] == Cleans(m, left - 1);
      PreflightOfCleans(fs, virt, m, left - 1);
    }
  }

  /** The tree differs from the one before the step only at the step's own paths and directories. */
  ghost predicate OnlyTheStep(fs0: Tree, fs1: Tree, m: Manifest) {
    && (forall q :: q !in m.Paths() && q !in Created(m) ==> (q in fs1 <==> q in fs0) && (q in fs0 ==> fs1[q] == fs0[q]))
    && (forall d :: d in Created(m) && d in fs1 ==> fs1[d] == Dir)
  }

  lemma TakenBackIsTheTree(fs0: Tree, fs1: Tree, g: Tree, m: Manifest)
    requires Wf(fs0) && m.Sound() && PrefixFree(m.Paths()) && Captured(fs0, m)
    requires OnlyTheStep(fs0, fs1, m) && TakenBack(fs0, fs1, g, m)
    ensures g == fs0
  {
    forall d | d in Created(m) ensures d !in fs0 && d !in g {
      if OthersBelow(fs1, m, d) {
        var p :| p in fs1 && Above(d, p) && p !in m.Paths() && (p !in Created(m) || fs1[p] != Dir);
        NothingOldBelowCreated(fs0, m, d, p);
      }
    }
  }

  /** Then undo gives exactly the tree before the step. */
  lemma UndoGivesTheTreeBack(fs0: Tree, fs1: Tree, blobs: BlobStore, m: Manifest)
    requires Wf(fs0) && m.Sound() && PrefixFree(m.Paths()) && Captured(fs0, m) && StepBlobsVerify(blobs, m)
    requires Restorable(fs1, m.Paths()) && EachBeforeOrAfter(fs1, m) && OnlyTheStep(fs0, fs1, m)
    ensures CheckedUndo(fs1, blobs, StepActions(m)) == Ok(fs0)
  {
    StepUndoIsExact(fs0, fs1, blobs, m);
    TakenBackIsTheTree(fs0, fs1, CheckedUndo(fs1, blobs, StepActions(m)).value, m);
  }

  // ----- When a check that passed is not enough ---------------------------------------------------------------

  lemma OtherPathStays(fs: Tree, blobs: BlobStore, p: Path, prior: Prior, q: Path)
    requires q in fs && q != p && Restore(fs, blobs, p, prior).Ok?
    ensures var g := Restore(fs, blobs, p, prior).value; q in g && g[q] == fs[q]
  {
  }

  lemma {:induction false} DirectoryStopsUndo(
      fs: Tree, blobs: BlobStore, acts: seq<Action>, listed: set<Path>, q: Path)
    requires PrefixFree(listed) && Concern(acts, listed) && q in listed && q in fs && fs[q] == Dir
    requires LastPut(acts, q).Some?
    ensures Perform(fs, blobs, acts).Err?
    decreases |acts|
  {
    var a := acts[0];
    ConcernPeels(acts, listed);
    if Act(fs, blobs, a).Ok? && !(a.Put? && a.At() == q) {
      if a.Put? {
        OtherPathStays(fs, blobs, a.At(), a.entry.before, q);
      }
      DirectoryStopsUndo(Act(fs, blobs, a).value, blobs, acts[1..], listed, q);
    }
  }

  /** The check does not look for directories where a step recorded one at commit. An undo whose parents
      and blobs are in order runs to its end exactly when no listed path is a directory now. */
  lemma RunsExactlyWithoutDirectories(fs: Tree, blobs: BlobStore, acts: seq<Action>, listed: set<Path>)
    requires Wf(fs) && PrefixFree(listed) && Concern(acts, listed) && BlobsVerify(blobs, acts)
    requires forall q :: q in listed ==> ParentsOk(fs, q) && LastPut(acts, q).Some?
    ensures Perform(fs, blobs, acts).Ok? <==> forall q :: q in listed && q in fs ==> fs[q] != Dir
  {
    if q :| q in listed && q in fs && fs[q] == Dir {
      DirectoryStopsUndo(fs, blobs, acts, listed, q);
    } else {
      SequenceRuns(fs, map[], fs, blobs, acts, listed);
    }
  }

  const HALFWAY_TREE: Tree := map[[] := Dir, ["x"] := File([1], 420), ["d"] := Dir]

  const HALFWAY_STEP := Manifest(0, 1, [], Committed,
    [Entry(["x"], WasAbsent, FileWith(Sha([1])), Some(FileWith(Sha([1])))),
     Entry(["d"], WasAbsent, FileWith(Sha([2])), Some(Other(Directory)))], [])

  /** A step that found a directory in place of its file at commit: its undo passes the check, restores
      the first path, and then stops. */
  lemma PassedCheckStopsHalfway()
    ensures Preflight(HALFWAY_TREE, map[], StepActions(HALFWAY_STEP)) == Ok([])
    ensures Perform(HALFWAY_TREE, map[], StepActions(HALFWAY_STEP)[..1]) == Ok(HALFWAY_TREE - {["x"]})
    ensures CheckedUndo(HALFWAY_TREE, map[], StepActions(HALFWAY_STEP)) == Err(Unsupported)
  {
    var fs, acts := HALFWAY_TREE, StepActions(HALFWAY_STEP);
    PutsAre(HALFWAY_STEP, 0);
    assert Cleans(HALFWAY_STEP, 0) == [];
    var x, d := acts[0], acts[1];
    assert acts == [x, d] && x.At() == ["x"] && d.At() == ["d"] && ["x"][..0] == [] && ["d"][..0] == [];
    assert acts[1..] == [d] && [d][1..] == [] && acts[..1] == [x] && [x][1..] == [];
    var g := fs - {["x"]};
    assert Act(fs, map[], x) == Ok(g);
    assert Act(g, map[], d) == Err(Unsupported);
    assert Perform(g, map[], [d]) == Err(Unsupported);
    var virt := map[["x"] := Absent];
    assert Preflight(fs, virt[["d"] := Absent], [d][1..]) == Ok([]);
    assert Preflight(fs, virt, [d]) == Ok([]);
    assert Preflight(fs, map[], acts) == Ok([]);
  }
}
