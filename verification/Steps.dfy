/** What a step records: prior states and fingerprints (`agent-checkpoints/src/state.rs`), manifests
    (`manifest.rs`), the errors, and which paths a step accepts (`paths.rs`). */
module Steps {
  import opened Wrappers
  import opened FileTree

  type SessionId = nat

  /** A SHA-256 digest, taken to be injective. */
  datatype Hex = Sha(content: Content)

  datatype Prior =
    | WasAbsent
    | WasFile(blob: Hex, size: nat, mode: nat)
    | WasSymlink(target: string)
  {
    function Fingerprint(): (f: Fingerprint) {
      match this
      case WasAbsent => Absent
      case WasFile(blob, _, _) => FileWith(blob)
      case WasSymlink(target) => SymlinkTo(target)
    }
  }

  /** What a step never leaves behind by intent. */
  datatype Odd = Directory | SpecialFile | UnreadableLink

  datatype Fingerprint = Absent | FileWith(sha: Hex) | SymlinkTo(target: string) | Other(what: Odd)

  datatype StepStatus = Prepared | Committed | Interrupted | Undone

  datatype Entry = Entry(path: Path, before: Prior, expectedAfter: Fingerprint, after: Option<Fingerprint>) {
    /** The post-step state undo compares against. */
    function Post(): (f: Fingerprint) {
      match after
      case Some(f) => f
      case None => expectedAfter
    }
  }

  datatype Manifest = Manifest(
    session: SessionId, seqNo: nat, root: Path, status: StepStatus,
    entries: seq<Entry>, createdDirs: seq<Path>)
  {
    function Abs(i: nat): (p: Path)
      requires i < |entries|
    {
      root + entries[i].path
    }

    /** The absolute paths the step lists. */
    function Paths(): (ps: set<Path>) {
      set i | 0 <= i < |entries| :: root + entries[i].path
    }

    /** What `begin_step` guarantees of the manifests it writes. */
    ghost predicate Sound() {
      && (forall i, j :: 0 <= i < j < |entries| ==> entries[i].path != entries[j].path)
      && (forall i :: 0 <= i < |entries| ==> entries[i].path != [])
      && (forall i, j :: 0 <= i < j < |createdDirs| ==>
            |createdDirs[i]| <= |createdDirs[j]| && createdDirs[i] != createdDirs[j])
      && (forall d :: d in createdDirs ==>
            d != [] && exists i :: 0 <= i < |entries| && Above(d, entries[i].path))
    }
  }

  datatype SessionMeta = SessionMeta(lastUsed: nat, lastSeq: nat, prunedThrough: nat)

  const NEW_SESSION := SessionMeta(0, 0, 0)

  datatype Clash = Clash(seqNo: nat, path: Path, found: Fingerprint)

  datatype Error =
    | PathRefused
    | Unsupported
    | TooLarge
    | StepTooLarge(size: nat, cap: nat)
    | StoreFull(needed: nat, capacity: nat)
    | Busy(path: Path)
    | Conflict(clashes: seq<Clash>)
    | NotFound
    | Pruned
    | AlreadyUndone
    | Corrupt
    | Io

  // ----- Looking at a path ----------------------------------------------------------------------------

  /** What `symlink_metadata` reports for a path none of whose ancestors is a link. */
  datatype Look = Nothing | Found(node: Node) | Failed

  function Lstat(fs: Tree, p: Path): (l: Look) {
    if !ParentsOk(fs, p) then Failed else if p in fs then Found(fs[p]) else Nothing
  }

  function FingerprintOf(l: Look): (f: Result<Fingerprint, Error>) {
    match l
    case Nothing => Ok(Absent)
    case Failed => Err(Io)
    case Found(File(content, _)) => Ok(FileWith(Sha(content)))
    case Found(Link(Some(target))) => Ok(SymlinkTo(target))
    case Found(Link(None)) => Ok(Other(UnreadableLink))
    case Found(Dir) => Ok(Other(Directory))
    case Found(Special) => Ok(Other(SpecialFile))
  }

  function FingerprintNow(fs: Tree, p: Path): (f: Result<Fingerprint, Error>) {
    FingerprintOf(Lstat(fs, p))
  }

  /** `p` holds exactly what `prior` records. */
  predicate Holds(fs: Tree, p: Path, prior: Prior) {
    match prior
    case WasAbsent => p !in fs
    case WasFile(blob, _, mode) => p in fs && fs[p] == File(blob.content, mode)
    case WasSymlink(target) => p in fs && fs[p] == Link(Some(target))
  }

  // ----- Which paths are accepted -----------------------------------------------------------------------

  datatype Component = Normal(name: string) | NotUtf8 | CurDir | ParentDir | RootOrPrefix

  /** A path as a tool gives it. */
  datatype Given = Given(absolute: bool, comps: seq<Component>)

  datatype Resolved = Resolved(rel: Path, abs: Path, missingDirs: seq<Path>)

  function Normals(p: Path): (cs: seq<Component>) {
    seq(|p|, i requires 0 <= i < |p| => Normal(p[i]))
  }

  /** The components below the granted folder, if the path lies in it. */
  function BelowRoot(rootCanon: Path, rootGiven: seq<Component>, p: Given): (cs: Option<seq<Component>>) {
    if !p.absolute then Some(p.comps)
    else if Normals(rootCanon) <= p.comps then Some(p.comps[|rootCanon|..])
    else if rootGiven <= p.comps then Some(p.comps[|rootGiven|..])
    else None
  }

  predicate Plain(cs: seq<Component>) {
    forall i :: 0 <= i < |cs| ==> cs[i].Normal? || cs[i].CurDir?
  }

  function Names(cs: seq<Component>): (ns: Path) {
    if cs == [] then [] else
      var ns := Names(cs[..|cs| - 1]);
      var last := cs[|cs| - 1];
      if last.Normal? then ns + [last.name] else ns
  }

  /** The ancestor of `rel` that is `i` components below the root. */
  function Ancestor(root: Path, rel: Path, i: nat): (p: Path)
    requires i <= |rel|
  {
    root + rel[..i]
  }

  /** The ancestors of `rel` below the root that do not exist, shallowest first. */
  function MissingDirs(fs: Tree, root: Path, rel: Path, upTo: nat): (ds: seq<Path>)
    requires upTo <= |rel|
  {
    if upTo <= 1 then [] else
      var ds := MissingDirs(fs, root, rel, upTo - 1);
      if Ancestor(root, rel, upTo - 1) in fs then ds else ds + [rel[..upTo - 1]]
  }

  predicate DirOrMissing(fs: Tree, p: Path) {
    p in fs ==> fs[p] == Dir
  }

  /** The ancestors of `rel` below the root, as far as they exist, are real directories. */
  predicate RelParentsOk(fs: Tree, root: Path, rel: Path) {
    forall i :: 0 < i < |rel| ==> DirOrMissing(fs, Ancestor(root, rel, i))
  }

  /** The whole of `resolve`, declaratively. */
  predicate Accepts(fs: Tree, rootCanon: Path, rootGiven: seq<Component>, p: Given) {
    var cs := BelowRoot(rootCanon, rootGiven, p);
    && cs.Some? && Plain(cs.value) && Names(cs.value) != []
    && RelParentsOk(fs, rootCanon, Names(cs.value))
  }

  /** What a path resolves to. */
  function Resolution(fs: Tree, rootCanon: Path, rootGiven: seq<Component>, p: Given): (r: Result<Resolved, Error>) {
    if Accepts(fs, rootCanon, rootGiven, p) then
      var rel := Names(BelowRoot(rootCanon, rootGiven, p).value);
      Ok(Resolved(rel, rootCanon + rel, MissingDirs(fs, rootCanon, rel, |rel|)))
    else Err(PathRefused)
  }

  /** The first loop: only plain components are accepted. */
  method CollectParts(cs: seq<Component>) returns (r: Result<Path, Error>)
    ensures r == if Plain(cs) then Ok(Names(cs)) else Err(PathRefused)
  {
    var parts: Path := [];
    assert cs[..0] == [];
    for i := 0 to |cs|
      invariant Plain(cs[..i]) && parts == Names(cs[..i])
    {
      assert cs[..i + 1][..i] == cs[..i];
      match cs[i]
      case Normal(s) => parts := parts + [s];
      case CurDir =>
      case _ =>
        assert !Plain(cs);
        return Err(PathRefused);
    }
    assert cs[..|cs|] == cs;
    return Ok(parts);
  }

  lemma NextAncestor(fs: Tree, root: Path, rel: Path, i: nat)
    requires Wf(fs) && i < |rel|
    ensures Ancestor(root, rel, i + 1) == Ancestor(root, rel, i) + [rel[i]]
    ensures Ancestor(root, rel, i) !in fs ==> Ancestor(root, rel, i + 1) !in fs
  {
    assert rel[..i + 1] == rel[..i] + [rel[i]];
    var p := Ancestor(root, rel, i + 1);
    assert Parent(p) == Ancestor(root, rel, i);
  }

  /** The second loop: every existing parent is a real directory, and the missing ones are listed. */
  method WalkParents(fs: Tree, root: Path, parts: Path) returns (r: Result<seq<Path>, Error>)
    requires Wf(fs) && parts != []
    ensures r == if RelParentsOk(fs, root, parts) then Ok(MissingDirs(fs, root, parts, |parts|)) else Err(PathRefused)
  {
    var cur := root;
    assert Ancestor(root, parts, 0) == root;
    var missingDirs: seq<Path> := [];
    var missing := false;
    for i := 0 to |parts| - 1
      invariant cur == Ancestor(root, parts, i)
      invariant missingDirs == MissingDirs(fs, root, parts, i + 1)
      invariant missing ==> cur !in fs
      invariant forall j :: 0 < j <= i ==> DirOrMissing(fs, Ancestor(root, parts, j))
    {
      NextAncestor(fs, root, parts, i);
      cur := cur + [parts[i]];
      if missing {
        missingDirs := missingDirs + [parts[..i + 1]];
        continue;
      }
      if cur in fs && fs[cur] != Dir {
        assert !DirOrMissing(fs, Ancestor(root, parts, i + 1));
        return Err(PathRefused);
      }
      if cur !in fs {
        missing := true;
        missingDirs := missingDirs + [parts[..i + 1]];
      }
    }
    return Ok(missingDirs);
  }

  /** Resolves a tool's path against the granted folder. */
  method Resolve(fs: Tree, rootCanon: Path, rootGiven: seq<Component>, p: Given) returns (r: Result<Resolved, Error>)
    requires Wf(fs)
    ensures r == Resolution(fs, rootCanon, rootGiven, p)
  {
    var below := BelowRoot(rootCanon, rootGiven, p);
    if below.None? {
      return Err(PathRefused);
    }
    var parts :- CollectParts(below.value);
    if parts == [] {
      return Err(PathRefused);
    }
    var missingDirs :- WalkParents(fs, rootCanon, parts);
    return Ok(Resolved(parts, rootCanon + parts, missingDirs));
  }

  /** The part of a path that is below the granted folder: all of a relative path; of an absolute one what follows
      the folder's real path, or else the path it was granted under. */
  ghost predicate IsRest(rootCanon: Path, rootGiven: seq<Component>, p: Given, rest: seq<Component>) {
    if !p.absolute then rest == p.comps
    else p.comps == Normals(rootCanon) + rest || (p.comps == rootGiven + rest && !(Normals(rootCanon) <= p.comps))
  }

  /** The names in it, in order; `.` adds none. */
  function NamesFrom(cs: seq<Component>): (ns: Path) {
    if cs == [] then [] else (match cs[0] case Normal(s) => [s] case _ => []) + NamesFrom(cs[1..])
  }

  lemma {:induction false} NamesBothWays(cs: seq<Component>)
    ensures Names(cs) == NamesFrom(cs)
    decreases |cs|
  {
    if cs != [] {
      NamesAppend(cs[..1], cs[1..]);
      assert cs[..1] + cs[1..] == cs && cs[..1][..0] == [];
      assert Names(cs[..1]) == (match cs[0] case Normal(s) => [s] case _ => []) by {
        assert Names([]) == [];
      }
      NamesBothWays(cs[1..]);
    }
  }

  lemma {:induction false} NamesAppend(a: seq<Component>, b: seq<Component>)
    ensures Names(a + b) == Names(a) + Names(b)
    decreases |b|
  {
    if b == [] {
      assert a + b == a;
    } else {
      NamesAppend(a, b[..|b| - 1]);
      assert (a + b)[..|a + b| - 1] == a + b[..|b| - 1];
    }
  }

  lemma RestIs(rootCanon: Path, rootGiven: seq<Component>, p: Given, rest: seq<Component>)
    ensures IsRest(rootCanon, rootGiven, p, rest) <==> BelowRoot(rootCanon, rootGiven, p) == Some(rest)
  {
    var canon := Normals(rootCanon);
    assert |canon| == |rootCanon|;
    if p.absolute && canon <= p.comps {
      assert p.comps == canon + p.comps[|rootCanon|..];
    } else if p.absolute && rootGiven <= p.comps {
      assert p.comps == rootGiven + p.comps[|rootGiven|..];
    }
    assert p.comps == canon + rest ==> p.comps[|rootCanon|..] == rest;
    assert p.comps == rootGiven + rest ==> p.comps[|rootGiven|..] == rest;
  }

  /** The path is the place `rel` below the granted folder, and says so in nothing but names and `.`. */
  ghost predicate IsBelow(rootCanon: Path, rootGiven: seq<Component>, p: Given, rel: Path) {
    exists rest: seq<Component> :: IsRest(rootCanon, rootGiven, p, rest) && rel == NamesFrom(rest)
                                   && forall i :: 0 <= i < |rest| ==> rest[i].Normal? || rest[i] == CurDir
  }

  lemma IsBelowExactly(rootCanon: Path, rootGiven: seq<Component>, p: Given, rel: Path)
    ensures var below := BelowRoot(rootCanon, rootGiven, p);
            IsBelow(rootCanon, rootGiven, p, rel) <==> below.Some? && Plain(below.value) && Names(below.value) == rel
  {
    var below := BelowRoot(rootCanon, rootGiven, p);
    if below.Some? {
      RestIs(rootCanon, rootGiven, p, below.value);
      NamesBothWays(below.value);
    }
    if IsBelow(rootCanon, rootGiven, p, rel) {
      var rest: seq<Component> :| IsRest(rootCanon, rootGiven, p, rest) && rel == NamesFrom(rest)
                                  && forall i :: 0 <= i < |rest| ==> rest[i].Normal? || rest[i] == CurDir;
      RestIs(rootCanon, rootGiven, p, rest);
    }
  }

  /** A path is accepted exactly when it is a place below the granted folder, not the folder itself, and whatever
      exists above it below the folder is a directory and no link; every other path is refused. */
  lemma ResolvedExactly(fs: Tree, rootCanon: Path, rootGiven: seq<Component>, p: Given, rel: Path)
    ensures var r := Resolution(fs, rootCanon, rootGiven, p);
            && (r.Ok? && r.value.rel == rel <==>
                  && rel != [] && IsBelow(rootCanon, rootGiven, p, rel)
                  && forall i :: 0 < i < |rel| && rootCanon + rel[..i] in fs ==> fs[rootCanon + rel[..i]] == Dir)
            && (r.Err? ==> r.error == PathRefused)
  {
    IsBelowExactly(rootCanon, rootGiven, p, rel);
    assert RelParentsOk(fs, rootCanon, rel) <==>
           forall i :: 0 < i < |rel| && rootCanon + rel[..i] in fs ==> fs[rootCanon + rel[..i]] == Dir by {
      assert forall i :: 0 < i < |rel| ==> Ancestor(rootCanon, rel, i) == rootCanon + rel[..i];
    }
  }

  /** It is then that place, with exactly the directories that are missing on the way there, topmost first. */
  lemma ResolvedSays(fs: Tree, rootCanon: Path, rootGiven: seq<Component>, p: Given)
    requires Resolution(fs, rootCanon, rootGiven, p).Ok?
    ensures var res := Resolution(fs, rootCanon, rootGiven, p).value;
            && res.abs == rootCanon + res.rel
            && (forall d :: d in res.missingDirs <==>
                  exists i :: 0 < i < |res.rel| && d == res.rel[..i] && rootCanon + res.rel[..i] !in fs)
            && forall i, j :: 0 <= i < j < |res.missingDirs| ==> |res.missingDirs[i]| < |res.missingDirs[j]|
  {
    var rel := Names(BelowRoot(rootCanon, rootGiven, p).value);
    MissingDirsAre(fs, rootCanon, rel, |rel|);
  }

  /** A stored relative path is resolved again as it is. */
  lemma StoredPathResolves(fs: Tree, root: Path, rel: Path)
    requires rel != []
    ensures Accepts(fs, root, Normals(root), Given(false, Normals(rel))) <==> RelParentsOk(fs, root, rel)
  {
    NamesOfNormals(rel);
  }

  lemma {:induction false} NamesOfNormals(rel: Path)
    ensures Names(Normals(rel)) == rel && Plain(Normals(rel))
    decreases |rel|
  {
    if rel != [] {
      NamesOfNormals(rel[..|rel| - 1]);
      assert Normals(rel)[..|rel| - 1] == Normals(rel[..|rel| - 1]);
    }
  }

  /** Under a granted folder that is a real directory, an accepted path has only real directories above
      it: it can never be reached through a link. */
  lemma AcceptedHasRealParents(fs: Tree, root: Path, rel: Path)
    requires Wf(fs) && root in fs && fs[root] == Dir && RelParentsOk(fs, root, rel)
    ensures ParentsOk(fs, root + rel)
  {
    var p := root + rel;
    forall i | 0 <= i < |p| && p[..i] in fs ensures fs[p[..i]] == Dir {
      if i < |root| {
        AncestorsAreDirs(fs, root, i);
        assert p[..i] == root[..i];
      } else if i == |root| {
        assert p[..i] == root;
      } else {
        assert p[..i] == Ancestor(root, rel, i - |root|);
        assert DirOrMissing(fs, Ancestor(root, rel, i - |root|));
      }
    }
  }

  /** The missing directories are exactly the missing proper ancestors below the root, in depth order. */
  lemma {:induction false} MissingDirsAre(fs: Tree, root: Path, rel: Path, upTo: nat)
    requires upTo <= |rel|
    ensures var ds := MissingDirs(fs, root, rel, upTo);
            && (forall d :: d in ds <==> exists i :: 0 < i < upTo && d == rel[..i] && root + rel[..i] !in fs)
            && (forall i, j :: 0 <= i < j < |ds| ==> |ds[i]| < |ds[j]|)
            && (forall d :: d in ds ==> 0 < |d| < upTo)
    decreases upTo
  {
    if upTo > 1 {
      MissingDirsAre(fs, root, rel, upTo - 1);
      var ds := MissingDirs(fs, root, rel, upTo);
      var init := MissingDirs(fs, root, rel, upTo - 1);
      forall d ensures d in ds <==> exists i :: 0 < i < upTo && d == rel[..i] && root + rel[..i] !in fs {
        if d in ds && d !in init {
          assert d == rel[..upTo - 1];
        }
        if i :| 0 < i < upTo && d == rel[..i] && root + rel[..i] !in fs {
          if i < upTo - 1 {
            assert d in init;
          }
        }
      }
    }
  }
}
