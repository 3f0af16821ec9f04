/** What an undo does to the member's folder (`undo_many` and `restore` of
    `agent-checkpoints/src/store.rs`), and why the check made beforehand is enough. */
module Undo {
  import opened Wrappers
  import opened FileTree
  import opened Steps

  /** The blob files on disk. */
  type BlobStore = map<Hex, Content>

  predicate BlobVerifies(blobs: BlobStore, hex: Hex) {
    hex in blobs && Sha(blobs[hex]) == hex
  }

  // ----- Restoring one path ----------------------------------------------------------------------------

  /** Puts `node` at `p` by renaming a temporary sibling over it. */
  function Replace(fs: Tree, p: Path, node: Node): (r: Result<Tree, Error>)
    requires p != []
  {
    match MakeDirs(fs, Parent(p))
    case None => Err(Io)
    case Some(g) => if p in g && g[p] == Dir then Err(Io) else Ok(g[p := node])
  }

  /** Puts `prior` back at `p`. */
  function Restore(fs: Tree, blobs: BlobStore, p: Path, prior: Prior): (r: Result<Tree, Error>) {
    if p == [] then Err(PathRefused) else
      match prior
      case WasAbsent =>
        (match Lstat(fs, p)
         case Failed => Err(Io)
         case Nothing => Ok(fs)
         case Found(node) => if node == Dir then Err(Unsupported) else Ok(fs - {p}))
      case WasFile(blob, _, mode) =>
        if MakeDirs(fs, Parent(p)).None? then Err(Io)
        else if BlobVerifies(blobs, blob) then Replace(fs, p, File(blobs[blob], mode)) else Err(Corrupt)
      case WasSymlink(target) => Replace(fs, p, Link(Some(target)))
  }

  /** Apart from `p`, only missing ancestors of `p` were added. */
  ghost predicate OnlyAt(fs: Tree, g: Tree, p: Path) {
    && (forall q :: q in fs && q != p ==> q in g && g[q] == fs[q])
    && (forall q :: q in g && q != p && q !in fs ==> g[q] == Dir && Above(q, p))
  }

  /** Nothing but directories above `p`, and no directory at `p`. */
  predicate Replaceable(fs: Tree, p: Path) {
    ParentsOk(fs, p) && (p in fs ==> fs[p] != Dir)
  }

  lemma SetNodeKeepsWf(g: Tree, p: Path, node: Node)
    requires Wf(g) && p != [] && Parent(p) in g && g[Parent(p)] == Dir
    requires p in g ==> g[p] != Dir
    ensures Wf(g[p := node])
  {
    var h := g[p := node];
    forall q | q in h && q != [] ensures Parent(q) in h && h[Parent(q)] == Dir {
      var parent := Parent(q);
      assert parent in g && g[parent] == Dir;
    }
  }

  lemma ReplaceResult(fs: Tree, p: Path, node: Node)
    requires Wf(fs) && p != [] && Replaceable(fs, p) && node != Dir
    ensures var r := Replace(fs, p, node);
            r.Ok? && Wf(r.value) && OnlyAt(fs, r.value, p) && p in r.value && r.value[p] == node
  {
    var d := Parent(p);
    assert forall i :: 0 <= i <= |d| ==> d[..i] == p[..i];
    assert MakeDirs(fs, d).Some? by {
      assert d == Parent(p);
    }
    MakeDirsResult(fs, d);
    var g := MakeDirs(fs, d).value;
    assert p in g ==> p in fs;
    SetNodeKeepsWf(g, p, node);
    forall q | q in g && q !in fs ensures Above(q, p) {
      assert q == d || Above(q, d);
      assert p[..|q|] == d[..|q|];
    }
  }

  lemma RemoveFileKeepsWf(fs: Tree, p: Path)
    requires Wf(fs) && p != [] && (p in fs ==> fs[p] != Dir)
    ensures Wf(fs - {p})
  {
    var g := fs - {p};
    forall q | q in g && q != [] ensures Parent(q) in g && g[Parent(q)] == Dir {
      assert q in fs;
    }
  }

  /** A replaceable path whose blob verifies is restored exactly, and nothing else is disturbed. */
  lemma RestoreResult(fs: Tree, blobs: BlobStore, p: Path, prior: Prior)
    requires Wf(fs) && p != [] && Replaceable(fs, p)
    requires prior.WasFile? ==> BlobVerifies(blobs, prior.blob)
    ensures var r := Restore(fs, blobs, p, prior);
            && r.Ok? && Wf(r.value) && OnlyAt(fs, r.value, p) && Holds(r.value, p, prior)
            && (prior.WasAbsent? ==> r.value == fs - {p})
  {
    match prior
    case WasAbsent =>
      RemoveFileKeepsWf(fs, p);
      assert p !in fs ==> fs - {p} == fs;
    case WasFile(blob, _, mode) => ReplaceResult(fs, p, File(blobs[blob], mode));
    case WasSymlink(target) => ReplaceResult(fs, p, Link(Some(target)));
  }

  // ----- A whole undo as a list of actions ----------------------------------------------------------------

  /** One thing an undo does: put a path's prior state back, or remove a directory if it is empty. */
  datatype Action =
    | Put(seqNo: nat, root: Path, entry: Entry)
    | Clean(dir: Path)
  {
    function At(): (p: Path)
      requires Put?
    {
      root + entry.path
    }
  }

  /** The entries from `k` on, then the created directories, deepest first (the last `left` of them). */
  function Puts(m: Manifest, k: nat): (acts: seq<Action>)
    requires k <= |m.entries|
    decreases |m.entries| - k
  {
    if k == |m.entries| then [] else [Put(m.seqNo, m.root, m.entries[k])] + Puts(m, k + 1)
  }

  function Cleans(m: Manifest, left: nat): (acts: seq<Action>)
    requires left <= |m.createdDirs|
  {
    if left == 0 then [] else [Clean(m.root + m.createdDirs[left - 1])] + Cleans(m, left - 1)
  }

  function StepActions(m: Manifest): (acts: seq<Action>) {
    Puts(m, 0) + Cleans(m, |m.createdDirs|)
  }

  function Actions(steps: seq<Manifest>): (acts: seq<Action>) {
    if steps == [] then [] else StepActions(steps[0]) + Actions(steps[1..])
  }

  function Act(fs: Tree, blobs: BlobStore, a: Action): (r: Result<Tree, Error>) {
    match a
    case Put(_, _, entry) => Restore(fs, blobs, a.At(), entry.before)
    case Clean(dir) => Ok(RemoveDirIfEmpty(fs, dir))
  }

  function Perform(fs: Tree, blobs: BlobStore, acts: seq<Action>): (r: Result<Tree, Error>)
    decreases |acts|
  {
    if acts == [] then Ok(fs) else
      match Act(fs, blobs, acts[0])
      case Err(e) => Err(e)
      case Ok(g) => Perform(g, blobs, acts[1..])
  }

  // ----- The check made beforehand ---------------------------------------------------------------------------

  /** What a path is expected to hold: the virtual view, else the tree as it is. */
  function Seen(fs: Tree, virt: map<Path, Fingerprint>, p: Path): (f: Result<Fingerprint, Error>) {
    if p in virt then Ok(virt[p]) else FingerprintNow(fs, p)
  }

  /** Every clash of the whole sequence against the virtual view. */
  function Preflight(fs: Tree, virt: map<Path, Fingerprint>, acts: seq<Action>): (r: Result<seq<Clash>, Error>)
    decreases |acts|
  {
    if acts == [] then Ok([]) else
      match acts[0]
      case Clean(_) => Preflight(fs, virt, acts[1..])
      case Put(seqNo, _, entry) =>
        var p := acts[0].At();
        var before := entry.before.Fingerprint();
        match Seen(fs, virt, p)
        case Err(e) => Err(e)
        case Ok(cur) =>
          match Preflight(fs, virt[p := before], acts[1..])
          case Err(e) => Err(e)
          case Ok(rest) =>
            Ok(if cur != before && cur != entry.Post() then [Clash(seqNo, entry.path, cur)] + rest else rest)
  }

  /** The virtual view after a sequence. */
  function View(virt: map<Path, Fingerprint>, acts: seq<Action>): (v: map<Path, Fingerprint>)
    decreases |acts|
  {
    if acts == [] then virt else
      match acts[0]
      case Clean(_) => View(virt, acts[1..])
      case Put(_, _, entry) => View(virt[acts[0].At() := entry.before.Fingerprint()], acts[1..])
  }

  predicate BlobsVerify(blobs: BlobStore, acts: seq<Action>) {
    forall i :: 0 <= i < |acts| && acts[i].Put? && acts[i].entry.before.WasFile? ==>
                  BlobVerifies(blobs, acts[i].entry.before.blob)
  }

  /** No listed path lies below another. */
  ghost predicate PrefixFree(listed: set<Path>) {
    forall p, q :: p in listed && q in listed ==> !Above(p, q)
  }

  /** The actions concern listed paths, and directories above them. */
  ghost predicate Concern(acts: seq<Action>, listed: set<Path>) {
    forall i :: 0 <= i < |acts| ==>
                  match acts[i]
                  case Put(_, _, entry) => acts[i].At() != [] && acts[i].At() in listed
                  case Clean(dir) => dir != [] && exists q :: q in listed && Above(dir, q)
  }

  /** Every listed path can be replaced. */
  ghost predicate Restorable(fs: Tree, listed: set<Path>) {
    Wf(fs) && forall q :: q in listed ==> Replaceable(fs, q)
  }

  /** On every listed path the real tree is what the view says. */
  ghost predicate Agrees(fs0: Tree, virt: map<Path, Fingerprint>, fs: Tree, listed: set<Path>) {
    forall q :: q in listed ==> FingerprintNow(fs, q) == Seen(fs0, virt, q)
  }

  /** `q` is above a path at which the actions put something back. */
  ghost predicate MadeFor(acts: seq<Action>, q: Path) {
    exists i :: 0 <= i < |acts| && acts[i].Put? && !acts[i].entry.before.WasAbsent? && Above(q, acts[i].At())
  }

  /** What happened off the listed paths: nothing, except that cleaned directories may be gone and
      missing directories above restored files and links may have been made. */
  ghost predicate Frame(fs: Tree, g: Tree, acts: seq<Action>, listed: set<Path>) {
    && (forall q :: q in fs && q !in listed ==>
          (q in g && g[q] == fs[q]) || (fs[q] == Dir && exists i :: 0 <= i < |acts| && acts[i] == Clean(q)))
    && (forall q :: q in g && q !in listed ==>
          (q in fs && g[q] == fs[q]) || (g[q] == Dir && MadeFor(acts, q)))
  }

  lemma FingerprintOfHeld(fs: Tree, p: Path, prior: Prior)
    requires ParentsOk(fs, p) && Holds(fs, p, prior)
    ensures FingerprintNow(fs, p) == Ok(prior.Fingerprint())
  {
    match prior
    case WasAbsent =>
    case WasFile(blob, _, _) => assert blob == Sha(blob.content);
    case WasSymlink(_) =>
  }

  lemma OtherListedUntouched(fs: Tree, g: Tree, p: Path, q: Path, listed: set<Path>)
    requires PrefixFree(listed) && p in listed && q in listed && q != p
    requires OnlyAt(fs, g, p) && Replaceable(fs, q)
    ensures Replaceable(g, q) && Lstat(g, q) == Lstat(fs, q)
  {
    assert !Above(p, q) && !Above(q, p);
    forall i | 0 <= i < |q| && q[..i] in g ensures g[q[..i]] == Dir {
      assert q[..i] == p ==> Above(p, q);
    }
  }

  lemma ReplaceableAfterPut(fs: Tree, g: Tree, p: Path, prior: Prior)
    requires OnlyAt(fs, g, p) && ParentsOk(fs, p) && Holds(g, p, prior)
    ensures Replaceable(g, p)
  {
    forall i | 0 <= i < |p| && p[..i] in g ensures g[p[..i]] == Dir {
      assert p[..i] != p;
    }
  }

  /** What one `Put` did. */
  ghost predicate PutDone(fs: Tree, g: Tree, a: Action)
    requires a.Put?
  {
    && Holds(g, a.At(), a.entry.before)
    && OnlyAt(fs, g, a.At())
    && (a.entry.before.WasAbsent? ==> g == fs - {a.At()})
  }

  /** One `Put` succeeds, restores its path and disturbs no other listed path. */
  lemma PutRuns(fs: Tree, blobs: BlobStore, a: Action, listed: set<Path>)
    requires a.Put? && a.At() != [] && a.At() in listed && PrefixFree(listed) && Restorable(fs, listed)
    requires a.entry.before.WasFile? ==> BlobVerifies(blobs, a.entry.before.blob)
    ensures var r := Act(fs, blobs, a);
            && r.Ok?
            && Restorable(r.value, listed)
            && PutDone(fs, r.value, a)
            && (forall q :: q in listed && q != a.At() ==> Lstat(r.value, q) == Lstat(fs, q))
  {
    var p := a.At();
    RestoreResult(fs, blobs, p, a.entry.before);
    var g := Act(fs, blobs, a).value;
    ReplaceableAfterPut(fs, g, p, a.entry.before);
    forall q | q in listed && q != p ensures Replaceable(g, q) && Lstat(g, q) == Lstat(fs, q) {
      OtherListedUntouched(fs, g, p, q, listed);
    }
  }

  /** One `Clean` disturbs no listed path. */
  lemma CleanRuns(fs: Tree, d: Path, listed: set<Path>)
    requires d != [] && PrefixFree(listed) && exists q :: q in listed && Above(d, q)
    requires Restorable(fs, listed)
    ensures Restorable(RemoveDirIfEmpty(fs, d), listed)
    ensures forall q :: q in listed ==> Lstat(RemoveDirIfEmpty(fs, d), q) == Lstat(fs, q)
  {
    RemoveDirKeepsWf(fs, d);
    assert d !in listed;
  }

  /** What the last `Put` of `q` puts back. */
  function LastPut(acts: seq<Action>, q: Path): (r: Option<Prior>)
    decreases |acts|
  {
    if acts == [] then None else
      match LastPut(acts[1..], q)
      case Some(prior) => Some(prior)
      case None => if acts[0].Put? && acts[0].At() == q then Some(acts[0].entry.before) else None
  }

  /** The view after one action. */
  function ViewAfter(virt: map<Path, Fingerprint>, a: Action): (v: map<Path, Fingerprint>) {
    if a.Put? then virt[a.At() := a.entry.before.Fingerprint()] else virt
  }

  lemma ConcernPeels(acts: seq<Action>, listed: set<Path>)
    requires acts != [] && Concern(acts, listed)
    ensures Concern(acts[1..], listed)
    ensures acts[0].Put? ==> acts[0].At() != [] && acts[0].At() in listed
    ensures acts[0].Clean? ==> acts[0].dir != [] && exists q :: q in listed && Above(acts[0].dir, q)
  {
    var rest := acts[1..];
    forall i | 0 <= i < |rest|
      ensures match rest[i]
              case Put(_, _, entry) => rest[i].At() != [] && rest[i].At() in listed
              case Clean(dir) => dir != [] && exists q :: q in listed && Above(dir, q)
    {
      assert rest[i] == acts[i + 1];
    }
  }

  /** What a sequence is run on: its actions concern the listed paths, and those can be replaced. */
  ghost predicate Runnable(fs: Tree, blobs: BlobStore, acts: seq<Action>, listed: set<Path>) {
    PrefixFree(listed) && Concern(acts, listed) && BlobsVerify(blobs, acts) && Restorable(fs, listed)
  }

  /** One action of a sequence. */
  lemma OneActionRuns(fs: Tree, blobs: BlobStore, acts: seq<Action>, listed: set<Path>)
    requires acts != [] && Runnable(fs, blobs, acts, listed)
    ensures var r := Act(fs, blobs, acts[0]);
            && r.Ok?
            && Runnable(r.value, blobs, acts[1..], listed)
            && (acts[0].Put? ==> PutDone(fs, r.value, acts[0]))
            && (forall q :: q in listed && !(acts[0].Put? && q == acts[0].At()) ==> Lstat(r.value, q) == Lstat(fs, q))
  {
    var a := acts[0];
    ConcernPeels(acts, listed);
    if a.Put? {
      PutRuns(fs, blobs, a, listed);
    } else {
      CleanRuns(fs, a.dir, listed);
    }
  }

  lemma AgreesAfterAction(
      fs0: Tree, virt: map<Path, Fingerprint>, fs: Tree, blobs: BlobStore, acts: seq<Action>, listed: set<Path>)
    requires acts != [] && Runnable(fs, blobs, acts, listed) && Agrees(fs0, virt, fs, listed)
    ensures Act(fs, blobs, acts[0]).Ok?
    ensures Agrees(fs0, ViewAfter(virt, acts[0]), Act(fs, blobs, acts[0]).value, listed)
  {
    OneActionRuns(fs, blobs, acts, listed);
    ConcernPeels(acts, listed);
    if acts[0].Put? {
      FingerprintOfHeld(Act(fs, blobs, acts[0]).value, acts[0].At(), acts[0].entry.before);
    }
  }

  /** Each listed path holds what its last `Put` puts back; without one it is as it was. */
  ghost predicate PutBack(fs: Tree, g: Tree, acts: seq<Action>, listed: set<Path>) {
    forall q :: q in listed ==>
      match LastPut(acts, q)
      case Some(prior) => Holds(g, q, prior)
      case None => Lstat(g, q) == Lstat(fs, q)
  }

  /** A sequence whose paths can be replaced runs to its end: every listed path is put back, nothing
      else is disturbed, and the tree is then what the virtual view predicted. */
  lemma {:induction false} SequenceRuns(
      fs0: Tree, virt: map<Path, Fingerprint>, fs: Tree, blobs: BlobStore, acts: seq<Action>, listed: set<Path>)
    requires Runnable(fs, blobs, acts, listed) && Agrees(fs0, virt, fs, listed)
    ensures Perform(fs, blobs, acts).Ok?
    ensures Restorable(Perform(fs, blobs, acts).value, listed)
    ensures Agrees(fs0, View(virt, acts), Perform(fs, blobs, acts).value, listed)
    ensures PutBack(fs, Perform(fs, blobs, acts).value, acts, listed)
    ensures Frame(fs, Perform(fs, blobs, acts).value, acts, listed)
    decreases |acts|
  {
    if acts != [] {
      var a, rest := acts[0], acts[1..];
      OneActionRuns(fs, blobs, acts, listed);
      AgreesAfterAction(fs0, virt, fs, blobs, acts, listed);
      var g := Act(fs, blobs, a).value;
      SequenceRuns(fs0, ViewAfter(virt, a), g, blobs, rest, listed);
      var h := Perform(g, blobs, rest).value;
      ConcernPeels(acts, listed);
      FrameStep(fs, g, h, acts, listed);
      PutBackStep(fs, g, h, acts, listed);
    }
  }

  lemma PutBackStep(fs: Tree, g: Tree, h: Tree, acts: seq<Action>, listed: set<Path>)
    requires acts != [] && PutBack(g, h, acts[1..], listed)
    requires acts[0].Put? ==> Holds(g, acts[0].At(), acts[0].entry.before)
    requires forall q :: q in listed && !(acts[0].Put? && q == acts[0].At()) ==> Lstat(g, q) == Lstat(fs, q)
    requires forall q :: q in listed ==> ParentsOk(g, q)
    ensures PutBack(fs, h, acts, listed)
  {
    forall q | q in listed
      ensures match LastPut(acts, q)
              case Some(prior) => Holds(h, q, prior)
              case None => Lstat(h, q) == Lstat(fs, q)
    {
      if LastPut(acts[1..], q).None? && acts[0].Put? && acts[0].At() == q {
        HeldStaysHeld(g, h, q, acts[0].entry.before);
      }
    }
  }

  lemma HeldStaysHeld(g: Tree, h: Tree, q: Path, prior: Prior)
    requires ParentsOk(g, q) && Holds(g, q, prior) && Lstat(h, q) == Lstat(g, q)
    ensures Holds(h, q, prior)
  {
  }

  lemma FrameStep(fs: Tree, g: Tree, h: Tree, acts: seq<Action>, listed: set<Path>)
    requires acts != [] && Frame(g, h, acts[1..], listed)
    requires acts[0].Put? ==> acts[0].At() in listed && PutDone(fs, g, acts[0])
    requires acts[0].Clean? ==> g == RemoveDirIfEmpty(fs, acts[0].dir)
    ensures Frame(fs, h, acts, listed)
  {
    var rest := acts[1..];
    forall q | q in fs && q !in listed
      ensures (q in h && h[q] == fs[q]) || (fs[q] == Dir && exists i :: 0 <= i < |acts| && acts[i] == Clean(q))
    {
      if q in g {
        assert g[q] == fs[q];
        if !(q in h && h[q] == g[q]) {
          var i :| 0 <= i < |rest| && rest[i] == Clean(q);
          assert acts[i + 1] == Clean(q);
        }
      } else {
        assert acts[0] == Clean(q);
      }
    }
    forall q | q in h && q !in listed
      ensures (q in fs && h[q] == fs[q]) || (h[q] == Dir && MadeFor(acts, q))
    {
      if q in g && h[q] == g[q] {
        if q !in fs {
          assert acts[0].Put? && !acts[0].entry.before.WasAbsent? && Above(q, acts[0].At());
        }
      } else {
        var i :| 0 <= i < |rest| && rest[i].Put? && !rest[i].entry.before.WasAbsent? && Above(q, rest[i].At());
        assert acts[i + 1] == rest[i];
      }
    }
  }
}
