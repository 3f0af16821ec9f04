/** Undoing any number of steps is exact: what every path holds afterwards, directories included. */
module UndoSession {
  import opened Wrappers
  import opened FileTree
  import opened Steps
  import opened Undo
  import opened UndoTheorems
  import opened UndoInverse

  // ----- Back through the trees of a session -----------------------------------------------------------

  /** The step captured `before` and led to `now`, as far as it came; nothing else happened. */
  ghost predicate LedTo(before: Tree, m: Manifest, now: Tree) {
    && Wf(before) && Captured(before, m)
    && EachBeforeOrAfter(now, m) && OnlyTheStep(before, now, m)
  }

  /** The trees a session went through, newest first. */
  ghost predicate Layered(trees: seq<Tree>, ms: seq<Manifest>) {
    |trees| == |ms| + 1 && forall k :: 0 <= k < |ms| ==> LedTo(trees[k + 1], ms[k], trees[k])
  }

  /** The actions of one of the session's steps can run. */
  lemma StepRunnable(now: Tree, blobs: BlobStore, m: Manifest, listed: set<Path>)
    requires m.Sound() && StepBlobsVerify(blobs, m) && m.Paths() <= listed
    requires PrefixFree(listed) && Restorable(now, listed)
    ensures Runnable(now, blobs, StepActions(m), listed)
  {
    StepConcerns(m);
    ConcernGrows(StepActions(m), m.Paths(), listed);
    PutsBlobs(blobs, m, 0);
    CleansBlobs(blobs, m, |m.createdDirs|);
  }

  lemma StepGoesBack(before: Tree, m: Manifest, now: Tree, blobs: BlobStore, listed: set<Path>)
    requires LedTo(before, m, now) && m.Sound() && StepBlobsVerify(blobs, m) && m.Paths() <= listed
    requires PrefixFree(listed) && Restorable(now, listed)
    ensures CheckedUndo(now, blobs, StepActions(m)) == Ok(before) && Restorable(before, listed)
  {
    RestorableFewer(now, m.Paths(), listed);
    UndoGivesTheTreeBack(before, now, blobs, m);
    StepRunnable(now, blobs, m, listed);
    UndoneStaysRestorable(now, blobs, StepActions(m), listed);
  }

  lemma RestorableFewer(fs: Tree, few: set<Path>, listed: set<Path>)
    requires few <= listed && PrefixFree(listed) && Restorable(fs, listed)
    ensures PrefixFree(few) && Restorable(fs, few)
  {
  }

  lemma UndoneStaysRestorable(fs: Tree, blobs: BlobStore, acts: seq<Action>, listed: set<Path>)
    requires Runnable(fs, blobs, acts, listed)
    ensures CheckedUndo(fs, blobs, acts).Ok? ==> Restorable(CheckedUndo(fs, blobs, acts).value, listed)
  {
    SequenceRuns(fs, map[], fs, blobs, acts, listed);
  }

  /** The actions of the whole session can run. */
  lemma SessionRunnable(fs: Tree, blobs: BlobStore, ms: seq<Manifest>)
    requires SoundSteps(ms) && PrefixFree(Listed(ms)) && Restorable(fs, Listed(ms))
    requires forall k :: 0 <= k < |ms| ==> StepBlobsVerify(blobs, ms[k])
    ensures Runnable(fs, blobs, Actions(ms), Listed(ms))
  {
    StepsConcern(ms);
    StepsBlobs(blobs, ms);
  }

  lemma {:induction false} ChainGoesBack(trees: seq<Tree>, blobs: BlobStore, ms: seq<Manifest>)
    requires |trees| == |ms| + 1
    requires forall k :: 0 <= k < |ms| ==> CheckedUndo(trees[k], blobs, StepActions(ms[k])) == Ok(trees[k + 1])
    ensures StepByStep(trees[0], blobs, ms) == Ok(trees[|ms|])
    decreases |ms|
  {
    if ms != [] {
      assert CheckedUndo(trees[0], blobs, StepActions(ms[0])) == Ok(trees[1]);
      ChainGoesBack(trees[1..], blobs, ms[1..]);
    }
  }

  lemma {:induction false} StillRestorable(trees: seq<Tree>, blobs: BlobStore, ms: seq<Manifest>, k: nat)
    requires Layered(trees, ms) && SoundSteps(ms) && k <= |ms|
    requires PrefixFree(Listed(ms)) && Restorable(trees[0], Listed(ms))
    requires forall i :: 0 <= i < |ms| ==> StepBlobsVerify(blobs, ms[i])
    ensures Restorable(trees[k], Listed(ms))
    decreases k
  {
    if k > 0 {
      StillRestorable(trees, blobs, ms, k - 1);
      PathsAreListed(ms, k - 1);
      assert LedTo(trees[k - 1 + 1], ms[k - 1], trees[k - 1]);
      StepGoesBack(trees[k], ms[k - 1], trees[k - 1], blobs, Listed(ms));
    }
  }

  lemma {:induction false} PathsAreListed(ms: seq<Manifest>, k: nat)
    requires k < |ms|
    ensures ms[k].Paths() <= Listed(ms)
    decreases k
  {
    if k > 0 {
      PathsAreListed(ms[1..], k - 1);
    }
  }

  /** If nothing but its steps happened, interrupted ones included, the undo of any number of steps gives
      exactly the tree from before the oldest. */
  lemma {:induction false} SessionGivesTheTreeBack(trees: seq<Tree>, blobs: BlobStore, ms: seq<Manifest>)
    requires Layered(trees, ms) && SoundSteps(ms) && PrefixFree(Listed(ms)) && Restorable(trees[0], Listed(ms))
    requires forall k :: 0 <= k < |ms| ==> StepBlobsVerify(blobs, ms[k])
    ensures CheckedUndo(trees[0], blobs, Actions(ms)) == Ok(trees[|ms|])
  {
    SessionRunnable(trees[0], blobs, ms);
    SessionIsStepByStep(trees[0], blobs, ms, Listed(ms));
    forall k | 0 <= k < |ms| ensures CheckedUndo(trees[k], blobs, StepActions(ms[k])) == Ok(trees[k + 1]) {
      StillRestorable(trees, blobs, ms, k);
      PathsAreListed(ms, k);
      StepGoesBack(trees[k + 1], ms[k], trees[k], blobs, Listed(ms));
    }
    ChainGoesBack(trees, blobs, ms);
  }

  // ----- Directories, whatever else happened -----------------------------------------------------------

  function Target(a: Action): (p: Path) {
    match a
    case Put(_, _, _) => a.At()
    case Clean(dir) => dir
  }

  predicate AtOrBelow(p: Path, d: Path) {
    p == d || Above(d, p)
  }

  /** No action comes back to a directory once it has been cleaned, or to what is below it. */
  ghost predicate Tidy(acts: seq<Action>) {
    forall c, i :: 0 <= c < i < |acts| && acts[c].Clean? ==> !AtOrBelow(Target(acts[i]), acts[c].dir)
  }

  lemma {:induction false} LeftAlone(fs: Tree, blobs: BlobStore, acts: seq<Action>, listed: set<Path>, d: Path)
    requires Runnable(fs, blobs, acts, listed)
    requires forall i :: 0 <= i < |acts| ==> !AtOrBelow(Target(acts[i]), d)
    ensures Perform(fs, blobs, acts).Ok?
    ensures forall q :: AtOrBelow(q, d) ==> (q in Perform(fs, blobs, acts).value <==> q in fs)
    decreases |acts|
  {
    if acts != [] {
      OneActionRuns(fs, blobs, acts, listed);
      var g := Act(fs, blobs, acts[0]).value;
      forall q | AtOrBelow(q, d) ensures q in g <==> q in fs {
        if acts[0].Put? && Above(q, acts[0].At()) {
          if q != d {
            AboveTransitive(d, q, acts[0].At());
          }
        }
      }
      LeftAlone(g, blobs, acts[1..], listed, d);
    }
  }

  /** A directory that was cleaned is there at the end only if something lies in it. */
  lemma {:induction false} CleanedHasChild(fs: Tree, blobs: BlobStore, acts: seq<Action>, listed: set<Path>, d: Path)
    requires Runnable(fs, blobs, acts, listed) && Tidy(acts) && Clean(d) in acts
    ensures Perform(fs, blobs, acts).Ok?
    ensures d in Perform(fs, blobs, acts).value ==> HasChild(Perform(fs, blobs, acts).value, d)
    decreases |acts|
  {
    OneActionRuns(fs, blobs, acts, listed);
    var f, rest := Act(fs, blobs, acts[0]).value, acts[1..];
    if acts[0] == Clean(d) {
      ConcernPeels(acts, listed);
      var q :| q in listed && Above(d, q);
      assert q[..|d|] == d && Replaceable(fs, q);
      assert d in fs ==> fs[d] == Dir;
      LeftAlone(f, blobs, rest, listed, d);
      if d in f {
        var c :| c in f && ChildOf(c, d);
        assert AtOrBelow(c, d) && c in Perform(fs, blobs, acts).value;
      }
    } else {
      assert Clean(d) in rest;
      CleanedHasChild(f, blobs, rest, listed, d);
    }
  }

  /** What a restored path needed made stays made, unless it is cleaned. */
  lemma {:induction false} MadeStays(fs: Tree, blobs: BlobStore, acts: seq<Action>, listed: set<Path>, q: Path)
    requires Runnable(fs, blobs, acts, listed) && Clean(q) !in acts && q !in listed
    requires q in fs || MadeFor(acts, q)
    ensures Perform(fs, blobs, acts).Ok? && q in Perform(fs, blobs, acts).value
    decreases |acts|
  {
    SequenceRuns(fs, map[], fs, blobs, acts, listed);
    if acts != [] {
      OneActionRuns(fs, blobs, acts, listed);
      var g, a, rest := Act(fs, blobs, acts[0]).value, acts[0], acts[1..];
      if q in fs {
        assert Frame(fs, Perform(fs, blobs, acts).value, acts, listed);
      } else {
        var i :| 0 <= i < |acts| && acts[i].Put? && !acts[i].entry.before.WasAbsent? && Above(q, acts[i].At());
        if i == 0 {
          AboveIsDir(g, q, a.At());
        } else {
          assert rest[i - 1] == acts[i];
        }
        MadeStays(g, blobs, rest, listed, q);
      }
    }
  }

  lemma {:induction false} LongestBelow(ps: set<Path>, d: Path) returns (p: Path)
    requires d in ps
    ensures p in ps && AtOrBelow(p, d) && forall q :: q in ps && AtOrBelow(q, d) ==> |q| <= |p|
    decreases ps
  {
    p := d;
    var rest := ps - {d};
    if e :| e in rest && AtOrBelow(e, d) {
      p := LongestOf(set q | q in ps && AtOrBelow(q, d));
    }
  }

  lemma {:induction false} LongestOf(ps: set<Path>) returns (p: Path)
    requires ps != {}
    ensures p in ps && forall q :: q in ps ==> |q| <= |p|
    decreases ps
  {
    p :| p in ps;
    if ps != {p} {
      var r := LongestOf(ps - {p});
      if |p| < |r| {
        p := r;
      }
    }
  }

  /** Of the directories that are cleaned, exactly those stay below which something else remains. */
  lemma CleanedStaysExactly(fs: Tree, blobs: BlobStore, acts: seq<Action>, listed: set<Path>, d: Path)
    requires Runnable(fs, blobs, acts, listed) && Tidy(acts) && Clean(d) in acts
    ensures Perform(fs, blobs, acts).Ok?
    ensures d in Perform(fs, blobs, acts).value <==>
            exists p :: p in Perform(fs, blobs, acts).value && Above(d, p) && Clean(p) !in acts
  {
    SequenceRuns(fs, map[], fs, blobs, acts, listed);
    var g := Perform(fs, blobs, acts).value;
    if d in g {
      var p := LongestBelow(g.Keys, d);
      if Clean(p) in acts {
        CleanedHasChild(fs, blobs, acts, listed, p);
        var c :| c in g && ChildOf(c, p);
        assert Above(p, c);
        if p != d {
          AboveTransitive(d, p, c);
        }
      }
    }
    if p :| p in g && Above(d, p) {
      AboveIsDir(g, d, p);
    }
  }

  // ----- The whole result ------------------------------------------------------------------------------

  /** The directories some step made. */
  function CreatedBy(ms: seq<Manifest>): (ds: set<Path>) {
    if ms == [] then {} else Created(ms[0]) + CreatedBy(ms[1..])
  }

  /** No step lists a path at or below a directory that a newer step had to make. Where one does, the directory
      was deleted in between. */
  ghost predicate NoneRemade(ms: seq<Manifest>) {
    forall k, j, d, q :: 0 <= k < j < |ms| && d in Created(ms[k]) && q in ms[j].Paths() ==> !AtOrBelow(q, d)
  }

  lemma {:induction false} CleansAre(m: Manifest, left: nat, d: Path)
    requires left <= |m.createdDirs|
    ensures Clean(d) in Cleans(m, left) <==> d in CleanDirs(m, left)
    ensures forall a :: a in Cleans(m, left) ==> a.Clean?
    ensures |Cleans(m, left)| == left == |CleanDirs(m, left)|
    ensures forall i :: 0 <= i < left ==> Cleans(m, left)[i] == Clean(CleanDirs(m, left)[i])
    decreases left
  {
    if left > 0 {
      CleansAre(m, left - 1, d);
    }
  }

  lemma StepCleans(m: Manifest, d: Path)
    requires m.Sound()
    ensures Clean(d) in StepActions(m) <==> d in Created(m)
  {
    PutsAre(m, 0);
    CleansAre(m, |m.createdDirs|, d);
    CleanDirsDeepestFirst(m);
  }

  lemma {:induction false} SessionCleans(ms: seq<Manifest>, d: Path)
    requires SoundSteps(ms)
    ensures Clean(d) in Actions(ms) <==> d in CreatedBy(ms)
    decreases |ms|
  {
    if ms != [] {
      StepCleans(ms[0], d);
      SessionCleans(ms[1..], d);
    }
  }

  lemma StepTidy(m: Manifest)
    requires m.Sound()
    ensures Tidy(StepActions(m))
  {
    var acts, n := StepActions(m), |m.entries|;
    PutsAre(m, 0);
    CleansAre(m, |m.createdDirs|, []);
    CleanDirsDeepestFirst(m);
    forall c, i | 0 <= c < i < |acts| && acts[c].Clean? ensures !AtOrBelow(Target(acts[i]), acts[c].dir) {
      assert acts[c] == Cleans(m, |m.createdDirs|)[c - n] && acts[i] == Cleans(m, |m.createdDirs|)[i - n];
    }
  }

  lemma TidyConcat(a: seq<Action>, b: seq<Action>)
    requires Tidy(a) && Tidy(b)
    requires forall x, y :: x in a && y in b && x.Clean? ==> !AtOrBelow(Target(y), x.dir)
    ensures Tidy(a + b)
  {
    var ab := a + b;
    forall c, i | 0 <= c < i < |ab| && ab[c].Clean? ensures !AtOrBelow(Target(ab[i]), ab[c].dir) {
      if c < |a| && i >= |a| {
        assert a[c] in a && b[i - |a|] in b;
      } else if c >= |a| {
        assert ab[c] == b[c - |a|] && ab[i] == b[i - |a|];
      }
    }
  }

  /** What the actions of some steps are about lies at or above a path one of the steps lists. */
  lemma {:induction false} TargetsAre(ms: seq<Manifest>, a: Action) returns (k: nat, q: Path)
    requires SoundSteps(ms) && a in Actions(ms)
    ensures k < |ms| && q in ms[k].Paths() && AtOrBelow(q, Target(a))
    decreases |ms|
  {
    if a in StepActions(ms[0]) {
      StepConcerns(ms[0]);
      k := 0;
      var i :| 0 <= i < |StepActions(ms[0])| && StepActions(ms[0])[i] == a;
      if a.Put? {
        q := a.At();
      } else {
        q :| q in ms[0].Paths() && Above(a.dir, q);
      }
    } else {
      var k1;
      k1, q := TargetsAre(ms[1..], a);
      k := k1 + 1;
    }
  }

  lemma {:induction false} SessionTidy(ms: seq<Manifest>)
    requires SoundSteps(ms) && NoneRemade(ms)
    ensures Tidy(Actions(ms))
    decreases |ms|
  {
    if ms != [] {
      var a, b := StepActions(ms[0]), Actions(ms[1..]);
      StepTidy(ms[0]);
      SessionTidy(ms[1..]);
      forall x, y | x in a && y in b && x.Clean? ensures !AtOrBelow(Target(y), x.dir) {
        StepCleans(ms[0], x.dir);
        var k, q := TargetsAre(ms[1..], y);
        assert q in ms[k + 1].Paths();
        if AtOrBelow(Target(y), x.dir) {
          BelowBelow(q, Target(y), x.dir);
        }
      }
      TidyConcat(a, b);
    }
  }

  lemma BelowBelow(q: Path, p: Path, d: Path)
    requires AtOrBelow(q, p) && AtOrBelow(p, d)
    ensures AtOrBelow(q, d)
  {
    if q != p && p != d {
      AboveTransitive(d, p, q);
    }
  }

  /** What is left at a path that no step made: listed ones hold what the oldest step found; others are there
      if they were, or if a restored path needed them. */
  ghost predicate LeftBehind(fs: Tree, ms: seq<Manifest>, p: Path) {
    if p in Listed(ms) then LastPut(Actions(ms), p).Some? && !LastPut(Actions(ms), p).value.WasAbsent?
    else p !in CreatedBy(ms) && (p in fs || MadeFor(Actions(ms), p))
  }

  lemma {:induction false} ListedIsPutBack(ms: seq<Manifest>, q: Path)
    requires SoundSteps(ms) && q in Listed(ms)
    ensures LastPut(Actions(ms), q).Some?
    decreases |ms|
  {
    LastPutConcat(StepActions(ms[0]), Actions(ms[1..]), q);
    if q in Listed(ms[1..]) {
      ListedIsPutBack(ms[1..], q);
    } else {
      var i :| 0 <= i < |ms[0].entries| && ms[0].root + ms[0].entries[i].path == q;
      LastPutOfStep(ms[0], q);
    }
  }

  lemma {:induction false} CreatedIsAbove(ms: seq<Manifest>, d: Path)
    requires SoundSteps(ms) && d in CreatedBy(ms)
    ensures exists q :: q in Listed(ms) && Above(d, q)
    decreases |ms|
  {
    if d in Created(ms[0]) {
      var e :| e in ms[0].createdDirs && ms[0].root + e == d;
      CreatedIsAboveListed(ms[0], e);
    } else {
      CreatedIsAbove(ms[1..], d);
    }
  }

  // ----- Which paths are there, step by step ----------------------------------------------------------

  /** The step found something at `q` and puts it back. */
  ghost predicate PutsBack(m: Manifest, q: Path) {
    exists i :: 0 <= i < |m.entries| && m.Abs(i) == q && !m.entries[i].before.WasAbsent?
  }

  /** What the step puts back lies below `q`. */
  ghost predicate NeedsDir(m: Manifest, q: Path) {
    exists i :: 0 <= i < |m.entries| && !m.entries[i].before.WasAbsent? && Above(q, m.Abs(i))
  }

  /** Whether a path is there once these steps are undone, newest first. A directory the last of them made
      stays exactly if something below it does that this step did not make. */
  ghost predicate StillThere(fs: Tree, ms: seq<Manifest>, p: Path)
    decreases |ms|, 1
  {
    if ms == [] then p in fs
    else if p in Created(ms[|ms| - 1]) then exists q :: Above(p, q) && Remains(fs, ms, q)
    else Remains(fs, ms, p)
  }

  /** The last of these steps did not make `q`, and leaves it: it is put back, or it was there and is not
      listed, or it is needed for what is put back. */
  ghost predicate Remains(fs: Tree, ms: seq<Manifest>, q: Path)
    requires ms != []
    decreases |ms|, 0
  {
    var m := ms[|ms| - 1];
    && q !in Created(m)
    && if q in m.Paths() then PutsBack(m, q) else StillThere(fs, ms[..|ms| - 1], q) || NeedsDir(m, q)
  }

  lemma {:induction false} ActionsSnoc(ms: seq<Manifest>)
    requires ms != []
    ensures Actions(ms) == Actions(ms[..|ms| - 1]) + StepActions(ms[|ms| - 1])
    decreases |ms|
  {
    var n := |ms| - 1;
    if n == 0 {
      assert ms[1..] == [] && ms[..0] == [];
    } else {
      ActionsSnoc(ms[1..]);
      assert ms[1..][..n - 1] == ms[..n][1..] && ms[..n][0] == ms[0];
    }
  }

  lemma OneStepMeans(m: Manifest)
    ensures Actions([m]) == StepActions(m) && Listed([m]) == m.Paths() && CreatedBy([m]) == Created(m)
  {
    assert [m][1..] == [];
    assert StepActions(m) + [] == StepActions(m);
  }

  /** What one step leaves, in terms of its entries. */
  lemma LeavesAre(f: Tree, m: Manifest, q: Path)
    requires m.Sound()
    ensures LeftBehind(f, [m], q) <==>
            if q in m.Paths() then PutsBack(m, q) else q !in Created(m) && (q in f || NeedsDir(m, q))
  {
    OneStepMeans(m);
    if q in m.Paths() {
      LastPutOfStep(m, q);
    } else {
      MadeForStep(m, q);
    }
  }

  lemma MadeForStep(m: Manifest, q: Path)
    ensures MadeFor(StepActions(m), q) <==> NeedsDir(m, q)
  {
    var acts := StepActions(m);
    PutsAre(m, 0);
    CleansAre(m, |m.createdDirs|, q);
    if NeedsDir(m, q) {
      var i :| 0 <= i < |m.entries| && !m.entries[i].before.WasAbsent? && Above(q, m.Abs(i));
      assert acts[i] == Puts(m, 0)[i];
    }
  }

  /** One more step is undone. */
  lemma {:induction false} OneStepLeaves(fs: Tree, f: Tree, blobs: BlobStore, ms: seq<Manifest>)
    requires ms != [] && ms[|ms| - 1].Sound() && PrefixFree(ms[|ms| - 1].Paths())
    requires Restorable(f, ms[|ms| - 1].Paths()) && StepBlobsVerify(blobs, ms[|ms| - 1])
    requires forall p :: p in f <==> StillThere(fs, ms[..|ms| - 1], p)
    ensures Perform(f, blobs, StepActions(ms[|ms| - 1])).Ok?
    ensures forall p :: p in Perform(f, blobs, StepActions(ms[|ms| - 1])).value <==> StillThere(fs, ms, p)
  {
    var m := ms[|ms| - 1];
    OneStepMeans(m);
    StepRunnable(f, blobs, m, m.Paths());
    SequenceRuns(f, map[], f, blobs, StepActions(m), m.Paths());
    var g := Perform(f, blobs, StepActions(m)).value;
    StepTidy(m);
    forall q ensures q !in Created(m) ==> (LeftBehind(f, [m], q) <==> Remains(fs, ms, q)) {
      LeavesAre(f, m, q);
    }
    forall p ensures p in g <==> StillThere(fs, ms, p) {
      if p in Created(m) {
        CreatedStaysExactly(f, blobs, [m], p);
        CreatedLeavesSame(fs, f, ms, p);
      } else {
        LeftBehindExactly(f, blobs, [m], p);
      }
    }
  }

  lemma {:induction false} CreatedLeavesSame(fs: Tree, f: Tree, ms: seq<Manifest>, d: Path)
    requires ms != [] && ms[|ms| - 1].Sound() && PrefixFree(ms[|ms| - 1].Paths())
    requires forall q :: q !in Created(ms[|ms| - 1]) ==> (LeftBehind(f, [ms[|ms| - 1]], q) <==> Remains(fs, ms, q))
    ensures (exists p :: Above(d, p) && LeftBehind(f, [ms[|ms| - 1]], p)) <==> exists q :: Above(d, q) && Remains(fs, ms, q)
  {
    var m := ms[|ms| - 1];
    if p :| Above(d, p) && LeftBehind(f, [m], p) {
      OneStepMeans(m);
      if p in Created(m) {
        CreatedIsNotListed(m, p);
      }
      assert Remains(fs, ms, p);
    }
  }

  lemma {:induction false} StillThereExactly(fs: Tree, blobs: BlobStore, ms: seq<Manifest>, listed: set<Path>)
    requires SoundSteps(ms) && Listed(ms) <= listed && PrefixFree(listed) && Restorable(fs, listed)
    requires forall k :: 0 <= k < |ms| ==> StepBlobsVerify(blobs, ms[k])
    ensures Perform(fs, blobs, Actions(ms)).Ok?
    ensures Restorable(Perform(fs, blobs, Actions(ms)).value, listed)
    ensures forall p :: p in Perform(fs, blobs, Actions(ms)).value <==> StillThere(fs, ms, p)
    decreases |ms|
  {
    if ms != [] {
      var n := |ms| - 1;
      ListedOfPrefix(ms);
      StillThereExactly(fs, blobs, ms[..n], listed);
      var f := Perform(fs, blobs, Actions(ms[..n])).value;
      ActionsSnoc(ms);
      PerformConcat(fs, blobs, Actions(ms[..n]), StepActions(ms[n]));
      RestorableFewer(f, ms[n].Paths(), listed);
      OneStepLeaves(fs, f, blobs, ms);
      StepRunnable(f, blobs, ms[n], listed);
      SequenceRuns(f, map[], f, blobs, StepActions(ms[n]), listed);
    }
  }

  lemma {:induction false} ListedOfPrefix(ms: seq<Manifest>)
    requires ms != []
    ensures Listed(ms[..|ms| - 1]) <= Listed(ms) && ms[|ms| - 1].Paths() <= Listed(ms)
    decreases |ms|
  {
    var n := |ms| - 1;
    if n > 0 {
      ListedOfPrefix(ms[1..]);
      assert ms[..n][0] == ms[0] && ms[..n][1..] == ms[1..][..n - 1];
    } else {
      assert ms[..0] == [];
    }
  }

  /** The `k`-th of these steps, newest first, is the oldest that lists the path of its `i`-th entry. */
  ghost predicate IsOldest(ms: seq<Manifest>, k: nat, i: nat) {
    && k < |ms| && i < |ms[k].entries|
    && forall j :: k < j < |ms| ==> ms[k].Abs(i) !in ms[j].Paths()
  }

  lemma {:induction false} OldestIsBack(fs: Tree, g: Tree, ms: seq<Manifest>, k: nat, i: nat)
    requires SoundSteps(ms) && PutBack(fs, g, Actions(ms), Listed(ms)) && IsOldest(ms, k, i)
    ensures Holds(g, ms[k].Abs(i), ms[k].entries[i].before)
  {
    OldestWins(ms, k, i);
    ListedHas(ms, k, i);
  }

  /** What an unlisted path holds that is there. */
  lemma {:induction false} UnlistedIs(fs: Tree, g: Tree, acts: seq<Action>, listed: set<Path>, p: Path)
    requires Frame(fs, g, acts, listed) && p in g && p !in listed
    ensures g[p] == if p in fs then fs[p] else Dir
  {
  }

  /** What the paths hold that are there. */
  lemma {:induction false} ContentsAre(fs: Tree, blobs: BlobStore, ms: seq<Manifest>)
    requires SoundSteps(ms) && Runnable(fs, blobs, Actions(ms), Listed(ms))
    ensures Perform(fs, blobs, Actions(ms)).Ok?
    ensures var g := Perform(fs, blobs, Actions(ms)).value;
            && (forall k: nat, i: nat :: IsOldest(ms, k, i) ==> Holds(g, ms[k].Abs(i), ms[k].entries[i].before))
            && (forall p :: p in g && p !in Listed(ms) ==> g[p] == if p in fs then fs[p] else Dir)
  {
    SequenceRuns(fs, map[], fs, blobs, Actions(ms), Listed(ms));
    var g := Perform(fs, blobs, Actions(ms)).value;
    forall k: nat, i: nat | IsOldest(ms, k, i) ensures Holds(g, ms[k].Abs(i), ms[k].entries[i].before) {
      OldestIsBack(fs, g, ms, k, i);
    }
    forall p | p in g && p !in Listed(ms) ensures g[p] == if p in fs then fs[p] else Dir {
      UnlistedIs(fs, g, Actions(ms), Listed(ms), p);
    }
  }

  /** Undoing any number of steps, whatever else happened to the folder meanwhile: exactly which paths are there
      afterwards, and what each of them holds. In closed form: a path no step made is there exactly when it is
      left behind, and, if no step comes back to a directory that a newer one made, a directory a step made is
      there exactly when something left behind lies below it. */
  lemma {:induction false} SessionUndoIsExact(fs: Tree, blobs: BlobStore, ms: seq<Manifest>)
    requires SoundSteps(ms) && PrefixFree(Listed(ms)) && Restorable(fs, Listed(ms))
    requires forall k :: 0 <= k < |ms| ==> StepBlobsVerify(blobs, ms[k])
    requires Preflight(fs, map[], Actions(ms)) == Ok([])
    ensures CheckedUndo(fs, blobs, Actions(ms)).Ok?
    ensures var g := CheckedUndo(fs, blobs, Actions(ms)).value;
            && (forall p :: p in g <==> StillThere(fs, ms, p))
            && (forall k: nat, i: nat :: IsOldest(ms, k, i) ==> Holds(g, ms[k].Abs(i), ms[k].entries[i].before))
            && (forall p :: p in g && p !in Listed(ms) ==> g[p] == if p in fs then fs[p] else Dir)
            && (forall p :: p !in CreatedBy(ms) ==> (p in g <==> LeftBehind(fs, ms, p)))
            && (NoneRemade(ms) ==> forall d :: d in CreatedBy(ms) ==>
                  (d in g <==> exists p :: Above(d, p) && LeftBehind(fs, ms, p)))
  {
    SessionRunnable(fs, blobs, ms);
    StillThereExactly(fs, blobs, ms, Listed(ms));
    ContentsAre(fs, blobs, ms);
    forall p | p !in CreatedBy(ms) ensures p in Perform(fs, blobs, Actions(ms)).value <==> LeftBehind(fs, ms, p) {
      LeftBehindExactly(fs, blobs, ms, p);
    }
    if NoneRemade(ms) {
      SessionTidy(ms);
      forall d | d in CreatedBy(ms)
        ensures d in Perform(fs, blobs, Actions(ms)).value <==> exists p :: Above(d, p) && LeftBehind(fs, ms, p)
      {
        CreatedStaysExactly(fs, blobs, ms, d);
      }
    }
  }

  lemma {:induction false} LeftBehindExactly(fs: Tree, blobs: BlobStore, ms: seq<Manifest>, p: Path)
    requires SoundSteps(ms) && Runnable(fs, blobs, Actions(ms), Listed(ms)) && p !in CreatedBy(ms)
    ensures Perform(fs, blobs, Actions(ms)).Ok?
    ensures p in Perform(fs, blobs, Actions(ms)).value <==> LeftBehind(fs, ms, p)
  {
    SequenceRuns(fs, map[], fs, blobs, Actions(ms), Listed(ms));
    if p in Listed(ms) {
      ListedIsPutBack(ms, p);
    } else {
      SessionCleans(ms, p);
      if p in fs || MadeFor(Actions(ms), p) {
        MadeStays(fs, blobs, Actions(ms), Listed(ms), p);
      }
    }
  }

  lemma {:induction false} CreatedStaysExactly(fs: Tree, blobs: BlobStore, ms: seq<Manifest>, d: Path)
    requires SoundSteps(ms) && Runnable(fs, blobs, Actions(ms), Listed(ms)) && Tidy(Actions(ms)) && d in CreatedBy(ms)
    ensures Perform(fs, blobs, Actions(ms)).Ok?
    ensures d in Perform(fs, blobs, Actions(ms)).value <==> exists p :: Above(d, p) && LeftBehind(fs, ms, p)
  {
    SessionCleans(ms, d);
    CleanedStaysExactly(fs, blobs, Actions(ms), Listed(ms), d);
    var g := Perform(fs, blobs, Actions(ms)).value;
    if p :| p in g && Above(d, p) && Clean(p) !in Actions(ms) {
      SessionCleans(ms, p);
      LeftBehindExactly(fs, blobs, ms, p);
    }
    if p :| Above(d, p) && LeftBehind(fs, ms, p) {
      if p in CreatedBy(ms) {
        CreatedIsAbove(ms, p);
      }
      SessionCleans(ms, p);
      LeftBehindExactly(fs, blobs, ms, p);
    }
  }

  // ----- A directory that an older step found ------------------------------------------------------------

  /** Writes `e/z` into a directory that is there. */
  const WRITES_Z := Manifest(
    0, 1, ROOT, Committed, [Entry(["e", "z"], WasAbsent, FileWith(Sha([1])), Some(FileWith(Sha([1]))))], [])

  /** After the member deleted `e`, writes `e/x` and has to make `e`. */
  const MAKES_E := Manifest(
    0, 2, ROOT, Committed, [Entry(["e", "x"], WasAbsent, FileWith(Sha([2])), Some(FileWith(Sha([2]))))], [["e"]])

  /** The member has put `e/z` back. */
  const WITH_BOTH: Tree :=
    map[[] := Dir, ["r"] := Dir, ["r", "e"] := Dir, ["r", "e", "x"] := File([2], 420), ["r", "e", "z"] := File([1], 420)]

  const WITH_EMPTY_E: Tree := map[[] := Dir, ["r"] := Dir, ["r", "e"] := Dir]

  const X_AND_E: seq<Action> := [Put(2, ROOT, MAKES_E.entries[0]), Clean(["r", "e"]), Put(1, ROOT, WRITES_Z.entries[0])]

  lemma RemadeActions()
    ensures Actions([MAKES_E, WRITES_Z]) == X_AND_E
    ensures X_AND_E[0].At() == ["r", "e", "x"] && X_AND_E[2].At() == ["r", "e", "z"]
  {
    assert Puts(WRITES_Z, 1) == [] && Cleans(WRITES_Z, 0) == [];
    assert Puts(MAKES_E, 1) == [] && Cleans(MAKES_E, 0) == [];
    assert Cleans(MAKES_E, 1) == [Clean(["r", "e"])] by {
      assert MAKES_E.createdDirs[0] == ["e"] && ["r"] + ["e"] == ["r", "e"];
    }
    var ms := [MAKES_E, WRITES_Z];
    assert ms[1..] == [WRITES_Z] && [WRITES_Z][1..] == [];
    assert Actions(ms[1..]) == StepActions(WRITES_Z) + Actions([]);
  }

  lemma RemadeCheck()
    ensures Preflight(WITH_BOTH, map[], X_AND_E) == Ok([])
  {
    RemadeActions();
    var x, z := ["r", "e", "x"], ["r", "e", "z"];
    assert x[..0] == [] && x[..1] == ["r"] && x[..2] == ["r", "e"];
    assert z[..0] == [] && z[..1] == ["r"] && z[..2] == ["r", "e"];
    assert Lstat(WITH_BOTH, x) == Found(File([2], 420)) && Lstat(WITH_BOTH, z) == Found(File([1], 420));
    var v := map[x := Absent];
    assert X_AND_E[1..][1..] == [X_AND_E[2]] && [X_AND_E[2]][1..] == [];
    assert Preflight(WITH_BOTH, v, [X_AND_E[2]]) == Ok([]);
    assert Preflight(WITH_BOTH, v, X_AND_E[1..]) == Ok([]);
  }

  lemma RemadeRun(blobs: BlobStore)
    ensures Perform(WITH_BOTH, blobs, X_AND_E) == Ok(WITH_EMPTY_E)
  {
    RemadeActions();
    var x, z, d := ["r", "e", "x"], ["r", "e", "z"], ["r", "e"];
    assert x[..0] == [] && x[..1] == ["r"] && x[..2] == d && z[..0] == [] && z[..1] == ["r"] && z[..2] == d;
    var f := WITH_BOTH - {x};
    assert Act(WITH_BOTH, blobs, X_AND_E[0]) == Ok(f);
    assert ChildOf(z, d) && z in f;
    assert Act(f, blobs, X_AND_E[1]) == Ok(f);
    assert f - {z} == WITH_EMPTY_E;
    assert Act(f, blobs, X_AND_E[2]) == Ok(WITH_EMPTY_E);
    assert X_AND_E[1..][1..] == [X_AND_E[2]] && [X_AND_E[2]][1..] == [];
    assert Perform(f, blobs, [X_AND_E[2]]) == Ok(WITH_EMPTY_E);
    assert Perform(f, blobs, X_AND_E[1..]) == Ok(WITH_EMPTY_E);
  }

  /** The condition of the last clause cannot be dropped: here the older step found `e`, the member deleted it,
      and the newer step made it again. The undo of both leaves it, with nothing below it: the very tree that
      the older step began on. */
  lemma FoundDirectoryStays(blobs: BlobStore)
    ensures var ms := [MAKES_E, WRITES_Z];
            && CheckedUndo(WITH_BOTH, blobs, Actions(ms)) == Ok(WITH_EMPTY_E) && Captured(WITH_EMPTY_E, WRITES_Z)
            && ["r", "e"] in CreatedBy(ms) && ["r", "e"] in WITH_EMPTY_E && !NoneRemade(ms)
            && forall p :: Above(["r", "e"], p) ==> p !in WITH_EMPTY_E
  {
    var ms := [MAKES_E, WRITES_Z];
    RemadeActions();
    RemadeCheck();
    RemadeRun(blobs);
    assert MAKES_E.root + ["e"] == ["r", "e"] && ["e"] in MAKES_E.createdDirs;
    assert ["r", "e"] in Created(ms[0]);
    var q := ["r", "e", "z"];
    assert WRITES_Z.Abs(0) == q && q in ms[1].Paths() && q[..2] == ["r", "e"];
    assert AtOrBelow(q, ["r", "e"]);
  }
}
