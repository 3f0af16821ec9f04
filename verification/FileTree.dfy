/** An abstract Unix file tree: what each absolute path holds. */
module FileTree {
  // Paths that hold nothing are not in the map. The operations are those the checkpoint store performs on
  // the member's folder.

  import opened Wrappers

  /** The components below the filesystem root; `[]` is the root itself. */
  type Path = seq<string>

  type Content = seq<nat>

  /** What a path holds. A link's target is `None` when it is not valid UTF-8. */
  datatype Node =
    | File(content: Content, mode: nat)
    | Link(target: Option<string>)
    | Dir
    | Special

  type Tree = map<Path, Node>

  function Parent(p: Path): (d: Path) {
    if p == [] then [] else p[..|p| - 1]
  }

  /** Everything lies in a directory. */
  ghost predicate Wf(fs: Tree) {
    && [] in fs && fs[[]] == Dir
    && forall p {:trigger Parent(p)} :: p in fs && p != [] ==> Parent(p) in fs && fs[Parent(p)] == Dir
  }

  /** `a` is a proper ancestor of `p`. */
  predicate Above(a: Path, p: Path) {
    |a| < |p| && p[..|a|] == a
  }

  predicate ChildOf(p: Path, d: Path) {
    |p| == |d| + 1 && p[..|d|] == d
  }

  lemma {:induction false} AncestorsAreDirs(fs: Tree, p: Path, i: nat)
    requires Wf(fs) && p in fs && i < |p|
    ensures p[..i] in fs && fs[p[..i]] == Dir
    decreases |p|
  {
    var q := Parent(p);
    if i < |q| {
      AncestorsAreDirs(fs, q, i);
      assert q[..i] == p[..i];
    } else {
      assert p[..i] == q;
    }
  }

  lemma AboveTransitive(a: Path, b: Path, c: Path)
    requires Above(a, b) && Above(b, c)
    ensures Above(a, c)
  {
    assert c[..|b|][..|a|] == c[..|a|];
  }

  lemma AboveIsDir(fs: Tree, a: Path, p: Path)
    requires Wf(fs) && p in fs && Above(a, p)
    ensures a in fs && fs[a] == Dir
  {
    AncestorsAreDirs(fs, p, |a|);
  }

  // ----- Making and removing directories -------------------------------------------------------------

  /** No existing ancestor of `p` is anything but a directory. */
  predicate ParentsOk(fs: Tree, p: Path) {
    forall i :: 0 <= i < |p| ==> p[..i] in fs ==> fs[p[..i]] == Dir
  }

  /** The missing ones of `d` and its ancestors. */
  function MissingUpTo(fs: Tree, d: Path): (ds: set<Path>) {
    set i | 0 <= i <= |d| && d[..i] !in fs :: d[..i]
  }

  /** `create_dir_all`: makes `d` and its missing ancestors; refused when one of them is not a
      directory. */
  function MakeDirs(fs: Tree, d: Path): (r: Option<Tree>) {
    if ParentsOk(fs, d) && (d in fs ==> fs[d] == Dir) then
      Some(fs + map q | q in MissingUpTo(fs, d) :: Dir)
    else None
  }

  lemma MakeDirsResult(fs: Tree, d: Path)
    requires Wf(fs) && MakeDirs(fs, d).Some?
    ensures var g := MakeDirs(fs, d).value;
            && Wf(g) && d in g && g[d] == Dir
            && (forall p :: p in fs ==> p in g && g[p] == fs[p])
            && (forall p :: p in g && p !in fs ==> g[p] == Dir && (p == d || Above(p, d)))
  {
    var g := MakeDirs(fs, d).value;
    assert d[..|d|] == d;
    forall p | p in g && p != [] ensures Parent(p) in g && g[Parent(p)] == Dir {
      if p !in fs {
        var i :| 0 <= i <= |d| && d[..i] !in fs && p == d[..i];
        assert d[..i][..i - 1] == d[..i - 1];
      }
    }
  }

  predicate HasChild(fs: Tree, d: Path) {
    exists p :: p in fs && ChildOf(p, d)
  }

  /** `remove_dir`, its result ignored: removes `d` when it is an empty directory. */
  function RemoveDirIfEmpty(fs: Tree, d: Path): (g: Tree) {
    if d in fs && fs[d] == Dir && !HasChild(fs, d) then fs - {d} else fs
  }

  lemma SomethingBelowGivesChild(fs: Tree, d: Path, p: Path)
    requires Wf(fs) && p in fs && Above(d, p)
    ensures HasChild(fs, d)
  {
    var c := p[..|d| + 1];
    assert c[..|d|] == p[..|d|];
    if |d| + 1 < |p| {
      AncestorsAreDirs(fs, p, |d| + 1);
    } else {
      assert c == p;
    }
    assert ChildOf(c, d);
  }

  lemma RemoveDirKeepsWf(fs: Tree, d: Path)
    requires Wf(fs) && d != []
    ensures Wf(RemoveDirIfEmpty(fs, d))
  {
    var g := RemoveDirIfEmpty(fs, d);
    forall p | p in g && p != [] ensures Parent(p) in g && g[Parent(p)] == Dir {
      assert Parent(p) in fs;
      if Parent(p) == d {
        assert ChildOf(p, d);
      }
    }
  }

  /** Removes, in this order, those of `dirs` that are empty by then. */
  function RemoveEmptyDirs(fs: Tree, dirs: seq<Path>): (g: Tree)
    decreases |dirs|
  {
    if dirs == [] then fs else RemoveEmptyDirs(RemoveDirIfEmpty(fs, dirs[0]), dirs[1..])
  }

  /** Deepest first, each once. */
  predicate DeepestFirst(dirs: seq<Path>) {
    forall i, j :: 0 <= i < j < |dirs| ==> |dirs[j]| <= |dirs[i]| && dirs[i] != dirs[j]
  }

  /** Something below `d` that is not a directory of the list. */
  ghost predicate ForeignBelow(fs: Tree, d: Path, dirs: seq<Path>) {
    exists p :: p in fs && Above(d, p) && Foreign(fs, p, dirs)
  }

  predicate Foreign(fs: Tree, p: Path, dirs: seq<Path>)
    requires p in fs
  {
    p !in dirs || fs[p] != Dir
  }

  lemma {:induction false} RemoveEmptyDirsFrame(fs: Tree, dirs: seq<Path>)
    requires Wf(fs) && forall d :: d in dirs ==> d != []
    ensures var g := RemoveEmptyDirs(fs, dirs);
            && Wf(g)
            && (forall p :: p in g ==> p in fs && g[p] == fs[p])
            && (forall p :: p in fs && p !in g ==> fs[p] == Dir && p in dirs)
    decreases |dirs|
  {
    if dirs != [] {
      assert dirs[0] in dirs && forall d :: d in dirs[1..] ==> d in dirs;
      RemoveDirKeepsWf(fs, dirs[0]);
      RemoveEmptyDirsFrame(RemoveDirIfEmpty(fs, dirs[0]), dirs[1..]);
    }
  }

  /** Deepest-first removal suffices: a directory of the list is gone exactly when nothing but listed
      directories was below it. */
  lemma {:induction false} RemovedExactlyWhenNothingForeign(fs: Tree, dirs: seq<Path>, d: Path)
    requires Wf(fs) && DeepestFirst(dirs) && d in dirs && forall x :: x in dirs ==> x != []
    ensures d in RemoveEmptyDirs(fs, dirs) <==> d in fs && (fs[d] != Dir || ForeignBelow(fs, d, dirs))
    decreases |dirs|
  {
    var d0, rest := dirs[0], dirs[1..];
    var g := RemoveDirIfEmpty(fs, d0);
    assert d0 in dirs && d0 !in rest && forall x :: x in rest ==> x in dirs;
    RemoveDirKeepsWf(fs, d0);
    RemoveEmptyDirsFrame(g, rest);
    if d == d0 {
      if d in fs && fs[d] == Dir {
        HeadStays(fs, dirs);
      }
    } else {
      RemovedExactlyWhenNothingForeign(g, rest, d);
      ForeignAfterHead(fs, dirs, d);
    }
  }

  /** The first of the list stays when it has a child, and then that child is foreign. */
  lemma HeadStays(fs: Tree, dirs: seq<Path>)
    requires Wf(fs) && dirs != [] && DeepestFirst(dirs) && dirs[0] in fs && fs[dirs[0]] == Dir
    ensures HasChild(fs, dirs[0]) <==> ForeignBelow(fs, dirs[0], dirs)
  {
    var d0 := dirs[0];
    if HasChild(fs, d0) {
      var c :| c in fs && ChildOf(c, d0);
      assert Above(d0, c) && c !in dirs && Foreign(fs, c, dirs);
    }
    if ForeignBelow(fs, d0, dirs) {
      var p :| p in fs && Above(d0, p) && Foreign(fs, p, dirs);
      SomethingBelowGivesChild(fs, d0, p);
    }
  }

  /** Dealing with the first of the list changes nothing about what is foreign below the others. */
  lemma ForeignAfterHead(fs: Tree, dirs: seq<Path>, d: Path)
    requires Wf(fs) && dirs != [] && DeepestFirst(dirs)
    ensures var g := RemoveDirIfEmpty(fs, dirs[0]);
            ForeignBelow(g, d, dirs[1..]) <==> ForeignBelow(fs, d, dirs)
  {
    var d0, rest := dirs[0], dirs[1..];
    var g := RemoveDirIfEmpty(fs, d0);
    assert d0 !in rest && forall x :: x in dirs <==> x == d0 || x in rest;
    if ForeignBelow(fs, d, dirs) {
      var p :| p in fs && Above(d, p) && Foreign(fs, p, dirs);
      assert p in g && Foreign(g, p, rest);
    }
    if ForeignBelow(g, d, rest) {
      var p :| p in g && Above(d, p) && Foreign(g, p, rest);
      if p != d0 || fs[p] != Dir {
        assert Foreign(fs, p, dirs);
      } else {
        HeadStays(fs, dirs);
        var c :| c in fs && Above(d0, c) && Foreign(fs, c, dirs);
        AboveTransitive(d, d0, c);
      }
    }
  }
}
