/** The Merkle tree of `agent-anchor/src/tree.rs` and `agent-records/src/merkle.rs`. */
module Merkle {
  // SHA-256 is modelled by free (injective) constructors, one per domain prefix. The tree hash and the
  // audit path are the recursive definitions of sections 2.1 and 2.1.1 of RFC 6962; the proof check is
  // the algorithm of section 2.1.3.2 of RFC 9162.

  import opened Wrappers
  /** A 32-byte value. `Bytes` stands for values that are not hashes of this module. */
  datatype Digest =
    | Bytes(n: nat)
    | LeafHash(data: Digest)
    | NodeHash(left: Digest, right: Digest)
    | CommitmentHash(v: nat, day: u64, firstSeq: u64, lastSeq: u64, count: u64, treeRoot: Digest)

  const ZERO_DIGEST := Bytes(0)

  // ----- Reference definitions (RFC 6962) -------------------------------------------------------

  /** Doubles `k` while it stays below `n`. */
  function SplitFrom(k: nat, n: nat): (r: nat)
    requires 1 <= k < n
    decreases n - k
  {
    if 2 * k < n then SplitFrom(2 * k, n) else k
  }

  /** The largest power of two strictly below `n`. */
  function Split(n: nat): (k: nat)
    requires n >= 2
  {
    SplitFrom(1, n)
  }

  function Pow2(e: nat): (p: nat)
    ensures p >= 1
  {
    if e == 0 then 1 else 2 * Pow2(e - 1)
  }

  lemma {:induction false} SplitFromIsPow2(e: nat, n: nat) returns (f: nat)
    requires Pow2(e) < n
    ensures SplitFrom(Pow2(e), n) == Pow2(f)
    ensures Pow2(f) < n <= 2 * Pow2(f)
    decreases n - Pow2(e)
  {
    if 2 * Pow2(e) < n {
      assert Pow2(e + 1) == 2 * Pow2(e);
      f := SplitFromIsPow2(e + 1, n);
    } else {
      f := e;
    }
  }

  /** `Split(n)` is the largest power of two below `n`: no power of two lies strictly between. */
  lemma SplitIsLargestPowerBelow(n: nat)
    requires n >= 2
    ensures exists f: nat :: Split(n) == Pow2(f)
    ensures 1 <= Split(n) < n <= 2 * Split(n)
  {
    assert Pow2(0) == 1;
    var f := SplitFromIsPow2(0, n);
  }

  lemma {:induction false} Pow2Monotone(e: nat, f: nat)
    requires e <= f
    ensures Pow2(e) <= Pow2(f)
  {
    if e < f {
      Pow2Monotone(e, f - 1);
    }
  }

  lemma SplitUnique(n: nat, e: nat)
    requires n >= 2
    requires Pow2(e) < n <= 2 * Pow2(e)
    ensures Split(n) == Pow2(e)
  {
    assert Pow2(0) == 1;
    var f := SplitFromIsPow2(0, n);
    if f < e {
      Pow2Monotone(f + 1, e);
    } else if e < f {
      Pow2Monotone(e + 1, f);
    }
  }

  /** Splitting commutes with halving: for `n > 2` the split point is even and halves to the split
      point of `ceil(n / 2)`. */
  lemma SplitHalves(n: nat)
    requires n > 2
    ensures Split(n) == 2 * Split((n + 1) / 2)
  {
    assert Pow2(0) == 1;
    var m := (n + 1) / 2;
    var f := SplitFromIsPow2(0, m);
    assert Pow2(f + 1) == 2 * Pow2(f);
    SplitUnique(n, f + 1);
  }

  /** The tree hash over already hashed nodes, split at the largest power of two. */
  function NodeTreeHash(nodes: seq<Digest>): (h: Digest)
    requires |nodes| > 0
    decreases |nodes|
  {
    if |nodes| == 1 then nodes[0] else
      SplitIsLargestPowerBelow(|nodes|);
      var k := Split(|nodes|);
      NodeHash(NodeTreeHash(nodes[..k]), NodeTreeHash(nodes[k..]))
  }

  /** The sibling hashes of node `i`, leaf to root, over already hashed nodes. */
  function NodeAuditPath(nodes: seq<Digest>, i: nat): (path: seq<Digest>)
    requires i < |nodes|
    decreases |nodes|
  {
    if |nodes| == 1 then [] else
      SplitIsLargestPowerBelow(|nodes|);
      var k := Split(|nodes|);
      if i < k then NodeAuditPath(nodes[..k], i) + [NodeTreeHash(nodes[k..])]
      else NodeAuditPath(nodes[k..], i - k) + [NodeTreeHash(nodes[..k])]
  }

  /** The Merkle tree hash of section 2.1 of RFC 6962. */
  function TreeHash(leaves: seq<Digest>): (h: Digest)
    requires |leaves| > 0
    decreases |leaves|
  {
    if |leaves| == 1 then LeafHash(leaves[0]) else
      SplitIsLargestPowerBelow(|leaves|);
      var k := Split(|leaves|);
      NodeHash(TreeHash(leaves[..k]), TreeHash(leaves[k..]))
  }

  /** The audit path of section 2.1.1 of RFC 6962. */
  function AuditPath(leaves: seq<Digest>, i: nat): (path: seq<Digest>)
    requires i < |leaves|
    decreases |leaves|
  {
    if |leaves| == 1 then [] else
      SplitIsLargestPowerBelow(|leaves|);
      var k := Split(|leaves|);
      if i < k then AuditPath(leaves[..k], i) + [TreeHash(leaves[k..])]
      else AuditPath(leaves[k..], i - k) + [TreeHash(leaves[..k])]
  }

  /** Trees of one size with one root have the same leaves. */
  lemma {:induction false} TreeHashInjective(a: seq<Digest>, b: seq<Digest>)
    requires |a| == |b| > 0
    requires TreeHash(a) == TreeHash(b)
    ensures a == b
    decreases |a|
  {
    if |a| > 1 {
      SplitIsLargestPowerBelow(|a|);
      var k := Split(|a|);
      TreeHashInjective(a[..k], b[..k]);
      TreeHashInjective(a[k..], b[k..]);
      assert a == a[..k] + a[k..] && b == b[..k] + b[k..];
    }
  }

  /** The leaf level: every record hash under the leaf prefix. */
  function LeafLevel(leaves: seq<Digest>): (level: seq<Digest>)
    ensures |level| == |leaves|
    ensures forall i :: 0 <= i < |leaves| ==> level[i] == LeafHash(leaves[i])
  {
    seq(|leaves|, i requires 0 <= i < |leaves| => LeafHash(leaves[i]))
  }

  lemma LeafLevelSplit(leaves: seq<Digest>, k: nat)
    requires k <= |leaves|
    ensures LeafLevel(leaves)[..k] == LeafLevel(leaves[..k])
    ensures LeafLevel(leaves)[k..] == LeafLevel(leaves[k..])
  {
  }

  lemma {:induction false} TreeHashOfLeafLevel(leaves: seq<Digest>)
    requires |leaves| > 0
    ensures TreeHash(leaves) == NodeTreeHash(LeafLevel(leaves))
    decreases |leaves|
  {
    if |leaves| > 1 {
      SplitIsLargestPowerBelow(|leaves|);
      var k := Split(|leaves|);
      LeafLevelSplit(leaves, k);
      TreeHashOfLeafLevel(leaves[..k]);
      TreeHashOfLeafLevel(leaves[k..]);
    }
  }

  lemma {:induction false} AuditPathOfLeafLevel(leaves: seq<Digest>, i: nat)
    requires i < |leaves|
    ensures AuditPath(leaves, i) == NodeAuditPath(LeafLevel(leaves), i)
    decreases |leaves|
  {
    if |leaves| > 1 {
      SplitIsLargestPowerBelow(|leaves|);
      var k := Split(|leaves|);
      LeafLevelSplit(leaves, k);
      TreeHashOfLeafLevel(leaves[..k]);
      TreeHashOfLeafLevel(leaves[k..]);
      if i < k {
        AuditPathOfLeafLevel(leaves[..k], i);
      } else {
        AuditPathOfLeafLevel(leaves[k..], i - k);
      }
    }
  }

  // ----- One level up ---------------------------------------------------------------------------

  /** One level above `nodes`: adjacent pairs hashed, an unpaired last node promoted. */
  function LevelAbove(nodes: seq<Digest>): (up: seq<Digest>)
    ensures |up| == (|nodes| + 1) / 2
  {
    if |nodes| == 0 then []
    else if |nodes| == 1 then [nodes[0]]
    else [NodeHash(nodes[0], nodes[1])] + LevelAbove(nodes[2..])
  }

  lemma {:induction false} LevelAboveAt(nodes: seq<Digest>, j: nat)
    requires j < (|nodes| + 1) / 2
    ensures LevelAbove(nodes)[j]
         == if 2 * j + 1 < |nodes| then NodeHash(nodes[2 * j], nodes[2 * j + 1]) else nodes[2 * j]
    decreases |nodes|
  {
    if |nodes| > 1 && j > 0 {
      LevelAboveAt(nodes[2..], j - 1);
    }
  }

  lemma {:induction false} LevelAboveSplits(nodes: seq<Digest>, k: nat)
    requires k <= |nodes| && k % 2 == 0
    ensures LevelAbove(nodes) == LevelAbove(nodes[..k]) + LevelAbove(nodes[k..])
    decreases k
  {
    if k == 0 {
      assert nodes[k..] == nodes;
    } else {
      LevelAboveSplits(nodes[2..], k - 2);
      assert nodes[2..][..k - 2] == nodes[..k][2..];
      assert nodes[2..][k - 2..] == nodes[k..];
    }
  }

  /** Moving one level up does not change the tree hash. */
  lemma {:induction false} LevelAboveKeepsTreeHash(nodes: seq<Digest>)
    requires |nodes| >= 1
    ensures NodeTreeHash(LevelAbove(nodes)) == NodeTreeHash(nodes)
    decreases |nodes|
  {
    var n := |nodes|;
    if n == 2 {
      assert LevelAbove(nodes[2..]) == [];
      assert Split(2) == 1;
      assert nodes[..1] == [nodes[0]] && nodes[1..] == [nodes[1]];
    } else if n > 2 {
      SplitIsLargestPowerBelow(n);
      SplitHalves(n);
      var k := Split(n);
      var up := LevelAbove(nodes);
      LevelAboveSplits(nodes, k);
      assert up[..k / 2] == LevelAbove(nodes[..k]);
      assert up[k / 2..] == LevelAbove(nodes[k..]);
      LevelAboveKeepsTreeHash(nodes[..k]);
      LevelAboveKeepsTreeHash(nodes[k..]);
    }
  }

  /** The index of the other node of `i`'s pair (`i ^ 1`). */
  function Sibling(i: nat): (s: nat) {
    if i % 2 == 0 then i + 1 else i - 1
  }

  /** The sibling of node `i` at this level, if it has one. */
  function SiblingAt(nodes: seq<Digest>, i: nat): (s: seq<Digest>) {
    if Sibling(i) < |nodes| then [nodes[Sibling(i)]] else []
  }

  /** Siblings lie on the same side of an even split. */
  lemma SiblingOnSide(nodes: seq<Digest>, i: nat, k: nat)
    requires k % 2 == 0 && i < |nodes| && k <= |nodes|
    ensures if i < k then SiblingAt(nodes[..k], i) == SiblingAt(nodes, i)
            else SiblingAt(nodes[k..], i - k) == SiblingAt(nodes, i)
  {
    assert i < k ==> Sibling(i) < k;
    assert i >= k ==> Sibling(i - k) == Sibling(i) - k >= 0;
  }

  /** The audit path of a level, given how the level splits. */
  lemma AuditPathOfSplit(nodes: seq<Digest>, i: nat, k: nat)
    requires i < |nodes| && |nodes| >= 2 && k == Split(|nodes|)
    ensures 1 <= k < |nodes|
    ensures NodeAuditPath(nodes, i)
         == if i < k then NodeAuditPath(nodes[..k], i) + [NodeTreeHash(nodes[k..])]
            else NodeAuditPath(nodes[k..], i - k) + [NodeTreeHash(nodes[..k])]
  {
    SplitIsLargestPowerBelow(|nodes|);
  }

  /** Where the split of a level and the split of the level above it lie. */
  lemma SplitOneLevelUp(n: nat)
    requires n > 2
    ensures 2 <= Split(n) < n && Split(n) % 2 == 0
    ensures Split(n) / 2 == Split((n + 1) / 2) < (n + 1) / 2
  {
    SplitIsLargestPowerBelow(n);
    SplitHalves(n);
    SplitIsLargestPowerBelow((n + 1) / 2);
  }

  /** The level above splits where the level splits, and each side keeps its tree hash. */
  lemma SidesOneLevelUp(nodes: seq<Digest>, k: nat)
    requires |nodes| > 2 && k == Split(|nodes|)
    ensures 2 <= k < |nodes| && k % 2 == 0
    ensures k / 2 == Split(|LevelAbove(nodes)|) < |LevelAbove(nodes)|
    ensures LevelAbove(nodes)[..k / 2] == LevelAbove(nodes[..k])
    ensures LevelAbove(nodes)[k / 2..] == LevelAbove(nodes[k..])
  {
    SplitOneLevelUp(|nodes|);
    LevelAboveSplits(nodes, k);
  }

  lemma AuditPathOfPair(nodes: seq<Digest>, i: nat)
    requires i < |nodes| == 2
    ensures NodeAuditPath(nodes, i) == SiblingAt(nodes, i)
    ensures NodeAuditPath(LevelAbove(nodes), i / 2) == []
  {
    assert Split(2) == 1;
    assert nodes[..1] == [nodes[0]] && nodes[1..] == [nodes[1]];
    assert NodeAuditPath(nodes[..1], 0) == [] && NodeAuditPath(nodes[1..], 0) == [];
  }

  /** The audit path is this level's sibling followed by the audit path one level up. */
  lemma {:induction false} AuditPathByLevels(nodes: seq<Digest>, i: nat)
    requires i < |nodes|
    ensures NodeAuditPath(nodes, i)
         == SiblingAt(nodes, i) + (if |nodes| == 1 then [] else NodeAuditPath(LevelAbove(nodes), i / 2))
    decreases |nodes|
  {
    if |nodes| == 2 {
      AuditPathOfPair(nodes, i);
    } else if |nodes| > 2 {
      var k := Split(|nodes|);
      SidesOneLevelUp(nodes, k);
      if i < k {
        AuditPathByLevels(nodes[..k], i);
        AuditPathFromLeft(nodes, LevelAbove(nodes), i, k);
      } else {
        AuditPathByLevels(nodes[k..], i - k);
        AuditPathFromRight(nodes, LevelAbove(nodes), i, k);
      }
    }
  }

  lemma AuditPathFromLeft(nodes: seq<Digest>, up: seq<Digest>, i: nat, k: nat)
    requires |nodes| > 2 && 2 <= k < |nodes| && k == Split(|nodes|) && k % 2 == 0 && i < k
    requires |up| >= 2 && k / 2 == Split(|up|) < |up|
    requires up[..k / 2] == LevelAbove(nodes[..k]) && up[k / 2..] == LevelAbove(nodes[k..])
    requires NodeAuditPath(nodes[..k], i)
          == SiblingAt(nodes[..k], i) + NodeAuditPath(LevelAbove(nodes[..k]), i / 2)
    ensures NodeAuditPath(nodes, i) == SiblingAt(nodes, i) + NodeAuditPath(up, i / 2)
  {
    var left, right := nodes[..k], nodes[k..];
    LevelAboveKeepsTreeHash(right);
    var top := [NodeTreeHash(right)];
    assert NodeAuditPath(nodes, i) == NodeAuditPath(left, i) + top by {
      AuditPathOfSplit(nodes, i, k);
    }
    assert NodeAuditPath(up, i / 2) == NodeAuditPath(LevelAbove(left), i / 2) + top by {
      AuditPathOfSplit(up, i / 2, k / 2);
    }
    SiblingOnSide(nodes, i, k);
  }

  lemma AuditPathOfOne(nodes: seq<Digest>)
    requires |nodes| == 1
    ensures LevelAbove(nodes) == nodes && NodeAuditPath(nodes, 0) == []
  {
  }

  lemma AuditPathRightOf(nodes: seq<Digest>, i: nat, k: nat)
    requires |nodes| > 2 && 2 <= k <= i < |nodes| && k == Split(|nodes|) && k % 2 == 0
    requires NodeAuditPath(nodes[k..], i - k) == SiblingAt(nodes[k..], i - k)
          + (if |nodes[k..]| == 1 then [] else NodeAuditPath(LevelAbove(nodes[k..]), (i - k) / 2))
    ensures NodeAuditPath(nodes, i) ==
            (SiblingAt(nodes, i) + NodeAuditPath(LevelAbove(nodes[k..]), (i - k) / 2)) + [NodeTreeHash(nodes[..k])]
  {
    if |nodes[k..]| == 1 {
      AuditPathOfOne(nodes[k..]);
    }
    SiblingOnSide(nodes, i, k);
    AuditPathOfSplit(nodes, i, k);
  }

  lemma AuditPathRightOfUp(up: seq<Digest>, right: seq<Digest>, left: seq<Digest>, j: nat, h: nat)
    requires |up| >= 2 && h == Split(|up|) <= j < |up| && left != []
    requires up[..h] == LevelAbove(left) && up[h..] == LevelAbove(right)
    ensures j - h < |LevelAbove(right)|
    ensures NodeAuditPath(up, j) == NodeAuditPath(LevelAbove(right), j - h) + [NodeTreeHash(left)]
  {
    LevelAboveKeepsTreeHash(left);
    AuditPathOfSplit(up, j, h);
  }

  lemma AuditPathFromRight(nodes: seq<Digest>, up: seq<Digest>, i: nat, k: nat)
    requires |nodes| > 2 && 2 <= k <= i < |nodes| && k == Split(|nodes|) && k % 2 == 0
    requires |up| >= 2 && k / 2 == Split(|up|) < |up|
    requires up[..k / 2] == LevelAbove(nodes[..k]) && up[k / 2..] == LevelAbove(nodes[k..])
    requires NodeAuditPath(nodes[k..], i - k) == SiblingAt(nodes[k..], i - k)
          + (if |nodes[k..]| == 1 then [] else NodeAuditPath(LevelAbove(nodes[k..]), (i - k) / 2))
    ensures NodeAuditPath(nodes, i) == SiblingAt(nodes, i) + NodeAuditPath(up, i / 2)
  {
    AuditPathRightOf(nodes, i, k);
    assert i / 2 - k / 2 == (i - k) / 2;
    AuditPathRightOfUp(up, nodes[k..], nodes[..k], i / 2, k / 2);
    var sibling, rest, top := SiblingAt(nodes, i), NodeAuditPath(LevelAbove(nodes[k..]), (i - k) / 2), [NodeTreeHash(nodes[..k])];
    assert (sibling + rest) + top == sibling + (rest + top);
  }

  /** The audit path has at most `ceil(log2 n)` siblings: `2 ^ (length - 1) < n`. */
  lemma {:induction false} AuditPathIsLogarithmic(nodes: seq<Digest>, i: nat)
    requires i < |nodes|
    ensures Pow2(|NodeAuditPath(nodes, i)|) < 2 * |nodes|
    decreases |nodes|
  {
    if |nodes| >= 2 {
      AuditPathByLevels(nodes, i);
      AuditPathIsLogarithmic(LevelAbove(nodes), i / 2);
      var up := NodeAuditPath(LevelAbove(nodes), i / 2);
      assert |NodeAuditPath(nodes, i)| <= |up| + 1;
      Pow2Monotone(|NodeAuditPath(nodes, i)|, |up| + 1);
    }
  }

  // ----- The level-by-level tree ----------------------------------------------------------------

  /** Whether `levels` are the levels over `nodes`: each is the level above the one before, all but
      the last have at least two nodes, and the last has one. */
  ghost predicate LevelsOver(levels: seq<seq<Digest>>, nodes: seq<Digest>) {
    && |levels| > 0
    && levels[0] == nodes
    && |levels[|levels| - 1]| == 1
    && forall j :: 0 <= j < |levels| - 1 ==> |levels[j]| > 1 && levels[j + 1] == LevelAbove(levels[j])
  }

  /** The siblings met on the way up from node `i` of the first of `levels`. */
  function SiblingsUp(levels: seq<seq<Digest>>, i: nat): (path: seq<Digest>) {
    if |levels| <= 1 then [] else SiblingAt(levels[0], i) + SiblingsUp(levels[1..], i / 2)
  }

  datatype Tree = Tree(levels: seq<seq<Digest>>) {

    /** The tree was built over these record hashes. */
    ghost predicate Over(leaves: seq<Digest>) {
      LevelsOver(levels, LeafLevel(leaves))
    }

    function Size(): (n: nat) {
      if |levels| == 0 then 0 else |levels[0]|
    }

    function Root(): (h: Digest) {
      if |levels| == 0 || |levels[|levels| - 1]| == 0 then ZERO_DIGEST else levels[|levels| - 1][0]
    }

    function Path(index: nat): (path: Option<seq<Digest>>) {
      if index >= Size() then None else Some(SiblingsUp(levels, index))
    }
  }

  /** Builds the levels bottom up. */
  method Build(leafData: seq<Digest>) returns (t: Option<Tree>)
    ensures t.None? <==> leafData == []
    ensures t.Some? ==> t.value.Over(leafData)
  {
    if leafData == [] {
      return None;
    }
    var levels := [LeafLevel(leafData)];
    while |levels[|levels| - 1]| > 1
      invariant |levels| > 0 && levels[0] == LeafLevel(leafData)
      invariant |levels[|levels| - 1]| >= 1
      invariant forall j :: 0 <= j < |levels| - 1 ==>
                  |levels[j]| > 1 && levels[j + 1] == LevelAbove(levels[j])
      decreases |levels[|levels| - 1]|
    {
      levels := levels + [LevelAbove(levels[|levels| - 1])];
    }
    return Some(Tree(levels));
  }

  /** Collects the siblings of leaf `index` level by level. */
  method CollectPath(t: Tree, index: nat) returns (path: Option<seq<Digest>>)
    ensures path == t.Path(index)
  {
    if index >= t.Size() {
      return None;
    }
    var out: seq<Digest> := [];
    var i := index;
    for j := 0 to |t.levels| - 1
      invariant out + SiblingsUp(t.levels[j..], i) == SiblingsUp(t.levels, index)
    {
      var level := t.levels[j];
      var sib := Sibling(i);
      assert t.levels[j..][1..] == t.levels[j + 1..];
      if sib < |level| {
        out := out + [level[sib]];
      }
      i := i / 2;
    }
    assert out + SiblingsUp(t.levels[|t.levels| - 1..], i) == out;
    return Some(out);
  }

  lemma {:induction false} LevelsOverTop(levels: seq<seq<Digest>>, nodes: seq<Digest>)
    requires |nodes| > 0 && LevelsOver(levels, nodes)
    ensures levels[|levels| - 1][0] == NodeTreeHash(nodes)
    decreases |levels|
  {
    if |levels| > 1 {
      LevelsOverTop(levels[1..], levels[1]);
      LevelAboveKeepsTreeHash(nodes);
    }
  }

  lemma {:induction false} LevelsOverPath(levels: seq<seq<Digest>>, nodes: seq<Digest>, i: nat)
    requires i < |nodes| && LevelsOver(levels, nodes)
    ensures SiblingsUp(levels, i) == NodeAuditPath(nodes, i)
    decreases |levels|
  {
    if |levels| > 1 {
      LevelsOverPath(levels[1..], levels[1], i / 2);
      AuditPathByLevels(nodes, i);
    }
  }

  /** The level-by-level tree is the tree of section 2.1 of RFC 6962: same size, same root. */
  lemma TreeRootIsTreeHash(t: Tree, leaves: seq<Digest>)
    requires leaves != [] && t.Over(leaves)
    ensures t.Size() == |leaves|
    ensures t.Root() == TreeHash(leaves)
  {
    LevelsOverTop(t.levels, LeafLevel(leaves));
    TreeHashOfLeafLevel(leaves);
  }

  /** Its paths are the audit paths of section 2.1.1, of length at most `ceil(log2 n)`. */
  lemma TreePathIsAuditPath(t: Tree, leaves: seq<Digest>, index: nat)
    requires leaves != [] && t.Over(leaves)
    ensures t.Path(index) == if index < |leaves| then Some(AuditPath(leaves, index)) else None
    ensures index < |leaves| ==> Pow2(|AuditPath(leaves, index)|) < 2 * |leaves|
  {
    if index < |leaves| {
      LevelsOverPath(t.levels, LeafLevel(leaves), index);
      AuditPathOfLeafLevel(leaves, index);
      AuditPathIsLogarithmic(LeafLevel(leaves), index);
    }
  }

  // ----- Checking a path (section 2.1.3.2 of RFC 9162) -------------------------------------------

  /** Shifts both positions until the first is odd (or zero). */
  function ShiftToOdd(fnode: nat, snode: nat): (p: (nat, nat)) {
    if fnode % 2 == 0 && fnode != 0 then ShiftToOdd(fnode / 2, snode / 2) else (fnode, snode)
  }

  /** The root the path leads to from `r` at position `fnode` of a level ending at `snode`; `None`
      when the path is too long or too short. */
  function Recompute(fnode: nat, snode: nat, r: Digest, path: seq<Digest>): (root: Option<Digest>)
    decreases |path|
  {
    if path == [] then
      if snode == 0 then Some(r) else None
    else if snode == 0 then None
    else if fnode % 2 == 1 || fnode == snode then
      var (f, s) := ShiftToOdd(fnode, snode);
      Recompute(f / 2, s / 2, NodeHash(path[0], r), path[1..])
    else
      Recompute(fnode / 2, snode / 2, NodeHash(r, path[0]), path[1..])
  }

  predicate PathVerifies(leaf: Digest, index: nat, size: nat, path: seq<Digest>, root: Digest) {
    index < size && Recompute(index, size - 1, LeafHash(leaf), path) == Some(root)
  }

  /** The loop of `verify_path`. */
  method VerifyPath(leaf: Digest, index: nat, size: nat, path: seq<Digest>, root: Digest)
    returns (ok: bool)
    ensures ok <==> PathVerifies(leaf, index, size, path, root)
  {
    if index >= size {
      return false;
    }
    var fnode: nat, snode: nat := index, size - 1;
    var r := LeafHash(leaf);
    for k := 0 to |path|
      invariant Recompute(fnode, snode, r, path[k..]) == Recompute(index, size - 1, LeafHash(leaf), path)
    {
      var p := path[k];
      assert path[k..][1..] == path[k + 1..];
      if snode == 0 {
        return false;
      }
      if fnode % 2 == 1 || fnode == snode {
        r := NodeHash(p, r);
        ghost var shifted := ShiftToOdd(fnode, snode);
        while fnode % 2 == 0 && fnode != 0
          invariant ShiftToOdd(fnode, snode) == shifted
          decreases fnode
        {
          fnode, snode := fnode / 2, snode / 2;
        }
      } else {
        r := NodeHash(r, p);
      }
      fnode, snode := fnode / 2, snode / 2;
    }
    return snode == 0 && r == root;
  }

  /** A promoted last node uses up no sibling. */
  lemma PromotionUsesNoSibling(i: nat, r: Digest, path: seq<Digest>)
    requires i > 0 && i % 2 == 0
    ensures Recompute(i, i, r, path) == Recompute(i / 2, i / 2, r, path)
  {
    if path != [] {
      assert ShiftToOdd(i, i) == ShiftToOdd(i / 2, i / 2);
      if (i / 2) % 2 == 1 {
        assert ShiftToOdd(i / 2, i / 2) == (i / 2, i / 2);
      }
    }
  }

  /** One level of the check: the sibling at this level is consumed and the parent is recomputed. */
  lemma RecomputeOneLevel(nodes: seq<Digest>, i: nat, rest: seq<Digest>)
    requires i < |nodes| && |nodes| >= 2
    ensures Recompute(i, |nodes| - 1, nodes[i], SiblingAt(nodes, i) + rest)
         == Recompute(i / 2, |LevelAbove(nodes)| - 1, LevelAbove(nodes)[i / 2], rest)
  {
    LevelAboveAt(nodes, i / 2);
    var path := SiblingAt(nodes, i) + rest;
    if Sibling(i) < |nodes| {
      assert path[1..] == rest;
    } else {
      assert path == rest && i == |nodes| - 1;
      PromotionUsesNoSibling(i, nodes[i], rest);
    }
  }

  lemma {:induction false} AuditPathRecomputes(nodes: seq<Digest>, i: nat)
    requires i < |nodes|
    ensures Recompute(i, |nodes| - 1, nodes[i], NodeAuditPath(nodes, i)) == Some(NodeTreeHash(nodes))
    decreases |nodes|
  {
    if |nodes| >= 2 {
      var up := LevelAbove(nodes);
      AuditPathByLevels(nodes, i);
      RecomputeOneLevel(nodes, i, NodeAuditPath(up, i / 2));
      AuditPathRecomputes(up, i / 2);
      LevelAboveKeepsTreeHash(nodes);
    }
  }

  /** Hashes are injective, so at one position only one start and one path lead to a given root. */
  lemma {:induction false} RecomputeIsInjective(
      fnode: nat, snode: nat, r1: Digest, path1: seq<Digest>, r2: Digest, path2: seq<Digest>)
    requires Recompute(fnode, snode, r1, path1).Some?
    requires Recompute(fnode, snode, r1, path1) == Recompute(fnode, snode, r2, path2)
    ensures r1 == r2 && path1 == path2
    decreases |path1|
  {
    if path1 != [] {
      var h1, h2 := NodeHash(path1[0], r1), NodeHash(path2[0], r2);
      if fnode % 2 == 1 || fnode == snode {
        var (f, s) := ShiftToOdd(fnode, snode);
        RecomputeIsInjective(f / 2, s / 2, h1, path1[1..], h2, path2[1..]);
      } else {
        RecomputeIsInjective(fnode / 2, snode / 2,
                             NodeHash(r1, path1[0]), path1[1..], NodeHash(r2, path2[0]), path2[1..]);
      }
      assert path1 == [path1[0]] + path1[1..] && path2 == [path2[0]] + path2[1..];
    }
  }

  /** Against a tree's root and size, the check accepts exactly the record at `index` with its audit
      path: every honest path verifies, and nothing else does. */
  lemma PathVerifiesExactly(leaves: seq<Digest>, leaf: Digest, index: nat, path: seq<Digest>)
    requires leaves != []
    ensures PathVerifies(leaf, index, |leaves|, path, TreeHash(leaves))
       <==> index < |leaves| && leaf == leaves[index] && path == AuditPath(leaves, index)
  {
    if index < |leaves| {
      var level := LeafLevel(leaves);
      AuditPathRecomputes(level, index);
      AuditPathOfLeafLevel(leaves, index);
      TreeHashOfLeafLevel(leaves);
      if PathVerifies(leaf, index, |leaves|, path, TreeHash(leaves)) {
        RecomputeIsInjective(index, |leaves| - 1,
                             LeafHash(leaf), path, level[index], AuditPath(leaves, index));
      }
    }
  }
}
