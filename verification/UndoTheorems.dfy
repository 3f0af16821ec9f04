/** What an undo that was checked beforehand achieves, over any number of steps. */
module UndoTheorems {
  import opened Wrappers
  import opened FileTree
  import opened Steps
  import opened Undo

  // ----- Sequences of actions, cut in two ------------------------------------------------------------

  lemma {:induction false} PerformConcat(fs: Tree, blobs: BlobStore, a: seq<Action>, b: seq<Action>)
    requires Perform(fs, blobs, a).Ok?
    ensures Perform(fs, blobs, a + b) == Perform(Perform(fs, blobs, a).value, blobs, b)
    decreases |a|
  {
    if a == [] {
      assert a + b == b;
    } else {
      assert (a + b)[1..] == a[1..] + b;
      PerformConcat(Act(fs, blobs, a[0]).value, blobs, a[1..], b);
    }
  }

  lemma RunnablePrefix(fs: Tree, blobs: BlobStore, acts: seq<Action>, listed: set<Path>, k: nat)
    requires Runnable(fs, blobs, acts, listed) && k <= |acts|
    ensures Runnable(fs, blobs, acts[..k], listed)
  {
    var pre := acts[..k];
    forall i | 0 <= i < |pre|
      ensures match pre[i]
              case Put(_, _, entry) => pre[i].At() != [] && pre[i].At() in listed
              case Clean(dir) => dir != [] && exists q :: q in listed && Above(dir, q)
    {
      assert pre[i] == acts[i];
    }
  }

  lemma RunnableRest(fs: Tree, blobs: BlobStore, a: seq<Action>, b: seq<Action>, listed: set<Path>)
    requires Runnable(fs, blobs, a + b, listed)
    ensures Runnable(fs, blobs, a, listed) && Perform(fs, blobs, a).Ok?
    ensures Runnable(Perform(fs, blobs, a).value, blobs, b, listed)
  {
    assert (a + b)[..|a|] == a;
    RunnablePrefix(fs, blobs, a + b, listed, |a|);
    SequenceRuns(fs, map[], fs, blobs, a, listed);
    assert forall i :: 0 <= i < |b| ==> b[i] == (a + b)[|a| + i];
    forall i | 0 <= i < |b|
      ensures match b[i]
              case Put(_, _, entry) => b[i].At() != [] && b[i].At() in listed
              case Clean(dir) => dir != [] && exists q :: q in listed && Above(dir, q)
    {
      assert b[i] == (a + b)[|a| + i];
    }
  }

  // ----- The check is exact -----------------------------------------------------------------------------

  /** `a` would overwrite nothing but the state it goes back from, or the one it restores. */
  predicate Expected(fs: Tree, a: Action)
    requires a.Put?
  {
    var now := FingerprintNow(fs, a.At());
    now == Ok(a.entry.before.Fingerprint()) || now == Ok(a.entry.Post())
  }

  /** Run to its end, no restore of the sequence would overwrite an unexpected state: `k` actions have
      run when the `k`-th one looks at the tree. */
  predicate OverwritesOnlyExpected(fs: Tree, blobs: BlobStore, acts: seq<Action>) {
    forall k :: 0 <= k < |acts| && acts[k].Put? ==>
                  var r := Perform(fs, blobs, acts[..k]);
                  r.Ok? && Expected(r.value, acts[k])
  }

  lemma ExpectedPeels(fs: Tree, blobs: BlobStore, acts: seq<Action>)
    requires acts != [] && Act(fs, blobs, acts[0]).Ok?
    ensures OverwritesOnlyExpected(fs, blobs, acts) <==>
            && (acts[0].Put? ==> Expected(fs, acts[0]))
            && OverwritesOnlyExpected(Act(fs, blobs, acts[0]).value, blobs, acts[1..])
  {
    var g, rest := Act(fs, blobs, acts[0]).value, acts[1..];
    assert acts[..0] == [];
    forall k | 0 <= k < |rest| ensures Perform(fs, blobs, acts[..k + 1]) == Perform(g, blobs, rest[..k]) {
      assert acts[..k + 1][1..] == rest[..k];
    }
    if OverwritesOnlyExpected(fs, blobs, acts) {
      forall k | 0 <= k < |rest| && rest[k].Put?
        ensures Perform(g, blobs, rest[..k]).Ok? && Expected(Perform(g, blobs, rest[..k]).value, rest[k])
      {
        assert rest[k] == acts[k + 1];
      }
    }
    if (acts[0].Put? ==> Expected(fs, acts[0])) && OverwritesOnlyExpected(g, blobs, rest) {
      forall k | 0 <= k < |acts| && acts[k].Put?
        ensures Perform(fs, blobs, acts[..k]).Ok? && Expected(Perform(fs, blobs, acts[..k]).value, acts[k])
      {
        if k > 0 {
          assert rest[k - 1] == acts[k];
          assert acts[..(k - 1) + 1] == acts[..k];
        }
      }
    }
  }

  lemma PreflightPeels(fs0: Tree, virt: map<Path, Fingerprint>, acts: seq<Action>)
    requires acts != [] && Preflight(fs0, ViewAfter(virt, acts[0]), acts[1..]).Ok?
    requires acts[0].Put? ==> Seen(fs0, virt, acts[0].At()).Ok?
    ensures Preflight(fs0, virt, acts).Ok?
    ensures Preflight(fs0, virt, acts) == Ok([]) <==>
            && Preflight(fs0, ViewAfter(virt, acts[0]), acts[1..]) == Ok([])
            && (acts[0].Put? ==>
                  var now := Seen(fs0, virt, acts[0].At());
                  now == Ok(acts[0].entry.before.Fingerprint()) || now == Ok(acts[0].entry.Post()))
  {
  }

  lemma CheckStep(fs0: Tree, virt: map<Path, Fingerprint>, fs: Tree, blobs: BlobStore, acts: seq<Action>)
    requires acts != [] && Act(fs, blobs, acts[0]).Ok?
    requires acts[0].Put? ==>
               Seen(fs0, virt, acts[0].At()).Ok? && Seen(fs0, virt, acts[0].At()) == FingerprintNow(fs, acts[0].At())
    requires var rest := Preflight(fs0, ViewAfter(virt, acts[0]), acts[1..]);
             && rest.Ok?
             && (rest == Ok([]) <==> OverwritesOnlyExpected(Act(fs, blobs, acts[0]).value, blobs, acts[1..]))
    ensures Preflight(fs0, virt, acts).Ok?
    ensures Preflight(fs0, virt, acts) == Ok([]) <==> OverwritesOnlyExpected(fs, blobs, acts)
  {
    ExpectedPeels(fs, blobs, acts);
    PreflightPeels(fs0, virt, acts);
  }

  lemma SeenAtPut(
      fs0: Tree, virt: map<Path, Fingerprint>, fs: Tree, blobs: BlobStore, acts: seq<Action>, listed: set<Path>)
    requires acts != [] && acts[0].Put? && Runnable(fs, blobs, acts, listed) && Agrees(fs0, virt, fs, listed)
    ensures var seen := Seen(fs0, virt, acts[0].At()); seen.Ok? && seen == FingerprintNow(fs, acts[0].At())
  {
    ConcernPeels(acts, listed);
    assert Lstat(fs, acts[0].At()) != Failed;
  }

  lemma {:induction false} CheckAgainstView(
      fs0: Tree, virt: map<Path, Fingerprint>, fs: Tree, blobs: BlobStore, acts: seq<Action>, listed: set<Path>)
    requires Runnable(fs, blobs, acts, listed) && Agrees(fs0, virt, fs, listed)
    ensures Preflight(fs0, virt, acts).Ok?
    ensures Preflight(fs0, virt, acts) == Ok([]) <==> OverwritesOnlyExpected(fs, blobs, acts)
    decreases |acts|
  {
    if acts != [] {
      OneActionRuns(fs, blobs, acts, listed);
      AgreesAfterAction(fs0, virt, fs, blobs, acts, listed);
      CheckAgainstView(fs0, ViewAfter(virt, acts[0]), Act(fs, blobs, acts[0]).value, blobs, acts[1..], listed);
      if acts[0].Put? {
        SeenAtPut(fs0, virt, fs, blobs, acts, listed);
      }
      CheckStep(fs0, virt, fs, blobs, acts);
    }
  }

  /** The check against the virtual view, made before anything is touched, passes exactly when no
      restore of the whole sequence would overwrite anything but what it should find. */
  lemma CheckIsExact(fs: Tree, blobs: BlobStore, acts: seq<Action>, listed: set<Path>)
    requires Runnable(fs, blobs, acts, listed)
    ensures Preflight(fs, map[], acts).Ok?
    ensures Preflight(fs, map[], acts) == Ok([]) <==> OverwritesOnlyExpected(fs, blobs, acts)
  {
    CheckAgainstView(fs, map[], fs, blobs, acts, listed);
  }

  /** Each fingerprint of the virtual view is what the tree really holds when its restore comes. */
  lemma ViewIsReal(fs: Tree, blobs: BlobStore, acts: seq<Action>, listed: set<Path>, k: nat)
    requires Runnable(fs, blobs, acts, listed) && k <= |acts|
    ensures var r := Perform(fs, blobs, acts[..k]);
            r.Ok? && forall q :: q in listed ==> Seen(fs, View(map[], acts[..k]), q) == FingerprintNow(r.value, q)
  {
    RunnablePrefix(fs, blobs, acts, listed, k);
    SequenceRuns(fs, map[], fs, blobs, acts[..k], listed);
  }

  // ----- A session at once, or step by step ---------------------------------------------------------------

  /** Check, then run: what one call does. */
  function CheckedUndo(fs: Tree, blobs: BlobStore, acts: seq<Action>): (r: Result<Tree, Error>) {
    var clashes :- Preflight(fs, map[], acts);
    if clashes != [] then Err(Conflict(clashes)) else Perform(fs, blobs, acts)
  }

  /** One call per step, in the order given. */
  function StepByStep(fs: Tree, blobs: BlobStore, ms: seq<Manifest>): (r: Result<Tree, Error>)
    decreases |ms|
  {
    if ms == [] then Ok(fs) else
      var g :- CheckedUndo(fs, blobs, StepActions(ms[0]));
      StepByStep(g, blobs, ms[1..])
  }

  lemma {:induction false} ExpectedConcat(
      fs: Tree, blobs: BlobStore, a: seq<Action>, b: seq<Action>, listed: set<Path>)
    requires Runnable(fs, blobs, a + b, listed)
    ensures Perform(fs, blobs, a).Ok?
    ensures OverwritesOnlyExpected(fs, blobs, a + b) <==>
            && OverwritesOnlyExpected(fs, blobs, a)
            && OverwritesOnlyExpected(Perform(fs, blobs, a).value, blobs, b)
    decreases |a|
  {
    if a == [] {
      assert a + b == b;
    } else {
      assert (a + b)[1..] == a[1..] + b && (a + b)[0] == a[0];
      OneActionRuns(fs, blobs, a + b, listed);
      var g := Act(fs, blobs, a[0]).value;
      ExpectedConcat(g, blobs, a[1..], b, listed);
      ExpectedPeels(fs, blobs, a + b);
      ExpectedPeels(fs, blobs, a);
    }
  }

  /** A call succeeds exactly when nothing unexpected would be overwritten. */
  lemma CheckedUndoIs(fs: Tree, blobs: BlobStore, acts: seq<Action>, listed: set<Path>)
    requires Runnable(fs, blobs, acts, listed)
    ensures Perform(fs, blobs, acts).Ok?
    ensures CheckedUndo(fs, blobs, acts).Ok? <==> OverwritesOnlyExpected(fs, blobs, acts)
    ensures CheckedUndo(fs, blobs, acts).Ok? ==> CheckedUndo(fs, blobs, acts) == Perform(fs, blobs, acts)
  {
    CheckIsExact(fs, blobs, acts, listed);
    SequenceRuns(fs, map[], fs, blobs, acts, listed);
  }

  lemma CheckedUndoConcat(fs: Tree, blobs: BlobStore, a: seq<Action>, b: seq<Action>, listed: set<Path>)
    requires Runnable(fs, blobs, a + b, listed)
    ensures CheckedUndo(fs, blobs, a + b).Ok? <==>
            && CheckedUndo(fs, blobs, a).Ok?
            && CheckedUndo(CheckedUndo(fs, blobs, a).value, blobs, b).Ok?
    ensures CheckedUndo(fs, blobs, a + b).Ok? ==>
              CheckedUndo(fs, blobs, a + b) == CheckedUndo(CheckedUndo(fs, blobs, a).value, blobs, b)
  {
    RunnableRest(fs, blobs, a, b, listed);
    CheckedUndoIs(fs, blobs, a + b, listed);
    CheckedUndoIs(fs, blobs, a, listed);
    CheckedUndoIs(Perform(fs, blobs, a).value, blobs, b, listed);
    ExpectedConcat(fs, blobs, a, b, listed);
    PerformConcat(fs, blobs, a, b);
  }

  /** Undoing a session in one call succeeds exactly when undoing its steps one by one, newest first,
      does, and leaves the same tree. */
  lemma {:induction false} SessionIsStepByStep(fs: Tree, blobs: BlobStore, ms: seq<Manifest>, listed: set<Path>)
    requires Runnable(fs, blobs, Actions(ms), listed)
    ensures CheckedUndo(fs, blobs, Actions(ms)).Ok? <==> StepByStep(fs, blobs, ms).Ok?
    ensures CheckedUndo(fs, blobs, Actions(ms)).Ok? ==> CheckedUndo(fs, blobs, Actions(ms)) == StepByStep(fs, blobs, ms)
    decreases |ms|
  {
    if ms != [] {
      var a, b := StepActions(ms[0]), Actions(ms[1..]);
      CheckedUndoConcat(fs, blobs, a, b, listed);
      RunnableRest(fs, blobs, a, b, listed);
      CheckedUndoIs(fs, blobs, a, listed);
      SessionIsStepByStep(Perform(fs, blobs, a).value, blobs, ms[1..], listed);
    }
  }

  // ----- Where paths are not independent -------------------------------------------------------------------

  const ROOT: Path := ["r"]

  /** Deletes the file `a`. */
  const DELETES_A := Manifest(
    0, 1, ROOT, Committed, [Entry(["a"], WasFile(Sha([7]), 1, 420), Absent, Some(Absent))], [])

  /** Then writes `a/b`, making the directory `a`. */
  const WRITES_BELOW_A := Manifest(
    0, 2, ROOT, Committed, [Entry(["a", "b"], WasAbsent, FileWith(Sha([8])), Some(FileWith(Sha([8]))))], [["a"]])

  const TREE_AFTER_BOTH: Tree :=
    map[[] := Dir, ["r"] := Dir, ["r", "a"] := Dir, ["r", "a", "b"] := File([8], 420)]

  const TREE_BEFORE_BOTH: Tree :=
    map[[] := Dir, ["r"] := Dir, ["r", "a"] := File([7], 420)]

  lemma ActionsOfBoth()
    ensures StepActions(DELETES_A) == [Put(1, ROOT, DELETES_A.entries[0])]
    ensures StepActions(WRITES_BELOW_A) == [Put(2, ROOT, WRITES_BELOW_A.entries[0]), Clean(["r", "a"])]
    ensures Actions([WRITES_BELOW_A, DELETES_A]) == StepActions(WRITES_BELOW_A) + StepActions(DELETES_A)
  {
    assert Puts(DELETES_A, 1) == [] && Cleans(DELETES_A, 0) == [];
    assert Puts(WRITES_BELOW_A, 1) == [] && Cleans(WRITES_BELOW_A, 0) == [];
    assert Cleans(WRITES_BELOW_A, 1) == [Clean(["r", "a"])] by {
      assert WRITES_BELOW_A.createdDirs[0] == ["a"] && ["r"] + ["a"] == ["r", "a"];
    }
    var ms := [WRITES_BELOW_A, DELETES_A];
    assert ms[1..] == [DELETES_A] && [DELETES_A][1..] == [];
    assert Actions(ms[1..]) == StepActions(DELETES_A) + Actions([]);
  }

  lemma LooksAtBoth()
    ensures Lstat(TREE_AFTER_BOTH, ["r", "a"]) == Found(Dir)
    ensures Lstat(TREE_AFTER_BOTH, ["r", "a", "b"]) == Found(File([8], 420))
  {
    var p := ["r", "a", "b"];
    assert p[..0] == [] && p[..1] == ["r"] && p[..2] == ["r", "a"];
    var q := ["r", "a"];
    assert q[..0] == [] && q[..1] == ["r"];
  }

  lemma NewerUndoneAlone(blobs: BlobStore)
    ensures CheckedUndo(TREE_AFTER_BOTH, blobs, StepActions(WRITES_BELOW_A)) == Ok(map[[] := Dir, ["r"] := Dir])
  {
    ActionsOfBoth();
    LooksAtBoth();
    var acts := StepActions(WRITES_BELOW_A);
    var put, clean := acts[0], acts[1];
    assert put.At() == ["r", "a", "b"];
    assert acts[1..] == [clean] && [clean][1..] == [];
    assert Preflight(TREE_AFTER_BOTH, map[put.At() := Absent], [clean]) == Ok([]);
    var g: Tree := map[[] := Dir, ["r"] := Dir, ["r", "a"] := Dir];
    assert Act(TREE_AFTER_BOTH, blobs, put) == Ok(g) by {
      assert TREE_AFTER_BOTH - {["r", "a", "b"]} == g;
    }
    assert Act(g, blobs, clean) == Ok(map[[] := Dir, ["r"] := Dir]) by {
      assert !HasChild(g, ["r", "a"]);
      assert g - {["r", "a"]} == map[[] := Dir, ["r"] := Dir];
    }
    assert Perform(g, blobs, [clean]) == Ok(map[[] := Dir, ["r"] := Dir]);
  }

  lemma OlderUndoneThen(blobs: BlobStore)
    requires blobs == map[Sha([7]) := [7]]
    ensures CheckedUndo(map[[] := Dir, ["r"] := Dir], blobs, StepActions(DELETES_A)) == Ok(TREE_BEFORE_BOTH)
  {
    ActionsOfBoth();
    var g: Tree := map[[] := Dir, ["r"] := Dir];
    var put := StepActions(DELETES_A)[0];
    var p := ["r", "a"];
    assert put.At() == p && [put][1..] == [];
    assert p[..0] == [] && p[..1] == ["r"];
    assert FingerprintNow(g, p) == Ok(Absent);
    assert MissingUpTo(g, ["r"]) == {} by {
      assert ["r"][..0] == [] && ["r"][..1] == ["r"];
    }
    assert MakeDirs(g, ["r"]) == Some(g) by {
      assert ["r"][..0] == [];
      assert g + (map q | q in MissingUpTo(g, ["r"]) :: Dir) == g;
    }
    assert Preflight(g, map[], [put]) == Ok([]) by {
      assert Preflight(g, map[p := put.entry.before.Fingerprint()], [put][1..]) == Ok([]);
    }
    assert Act(g, blobs, put) == Ok(g[p := File([7], 420)]);
    assert g[p := File([7], 420)] == TREE_BEFORE_BOTH;
    assert Perform(TREE_BEFORE_BOTH, blobs, [put][1..]) == Ok(TREE_BEFORE_BOTH);
    assert Perform(g, blobs, [put]) == Ok(TREE_BEFORE_BOTH);
  }

  lemma BothCheckedAtOnce()
    ensures Preflight(TREE_AFTER_BOTH, map[], Actions([WRITES_BELOW_A, DELETES_A])) ==
            Ok([Clash(1, ["a"], Other(Directory))])
  {
    ActionsOfBoth();
    LooksAtBoth();
    var acts := Actions([WRITES_BELOW_A, DELETES_A]);
    var put, clean, older := acts[0], acts[1], acts[2];
    assert put.At() == ["r", "a", "b"] && older.At() == ["r", "a"];
    var virt := map[put.At() := Absent];
    assert Preflight(TREE_AFTER_BOTH, virt, acts[1..]) == Preflight(TREE_AFTER_BOTH, virt, acts[1..][1..]);
    assert acts[1..][1..] == [older] && [older][1..] == [];
    assert Seen(TREE_AFTER_BOTH, virt, older.At()) == Ok(Other(Directory));
    assert Preflight(TREE_AFTER_BOTH, virt[older.At() := older.entry.before.Fingerprint()], [older][1..]) == Ok([]);
    assert older.entry.Post() == Absent && older.seqNo == 1 && older.entry.path == ["a"];
    assert [Clash(1, ["a"], Other(Directory))] + [] == [Clash(1, ["a"], Other(Directory))];
    assert Preflight(TREE_AFTER_BOTH, virt, [older]) == Ok([Clash(1, ["a"], Other(Directory))]);
  }

  /** Without prefix-freeness the two ways differ: the virtual view keeps showing the directory that
      undoing the newer step removes, so the session undo is refused although undoing the two steps one
      by one restores everything. */
  lemma NestedPathsRefuseSessionUndo()
    ensures var ms, blobs := [WRITES_BELOW_A, DELETES_A], map[Sha([7]) := [7]];
            && CheckedUndo(TREE_AFTER_BOTH, blobs, Actions(ms)) == Err(Conflict([Clash(1, ["a"], Other(Directory))]))
            && StepByStep(TREE_AFTER_BOTH, blobs, ms) == Ok(TREE_BEFORE_BOTH)
  {
    var ms, blobs := [WRITES_BELOW_A, DELETES_A], map[Sha([7]) := [7]];
    BothCheckedAtOnce();
    NewerUndoneAlone(blobs);
    OlderUndoneThen(blobs);
    assert ms[1..] == [DELETES_A] && [DELETES_A][1..] == [];
    assert StepByStep(map[[] := Dir, ["r"] := Dir], blobs, [DELETES_A]) == Ok(TREE_BEFORE_BOTH);
  }
}
