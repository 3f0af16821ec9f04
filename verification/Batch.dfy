/** One UTC day's batch: header, commitment, inclusion proofs and their verification
    (`agent-anchor/src/batch.rs`). */
module Batch {
  import opened Wrappers
  import opened Merkle

  const DAY_MS: int := 86_400_000
  const BATCH_VERSION: nat := 1

  /** Errors of the anchor crate that the modelled operations return. */
  datatype AnchorError =
    | SeqGap(day: u64, expected: u64, found: u64)
    | Conflict(day: u64)
    | Overlap(day: u64, other: u64)
    | NotBatched(day: u64)
    | PrunedDay(day: u64)
    | DayNotClosed(day: u64, today: u64)
    | BadCalldata
    | Corrupt

  /** One retained record as a Merkle leaf. */
  datatype RetainedLeaf = RetainedLeaf(seqNo: u64, tsMs: u64, hash: Digest)

  function UtcDay(tsMs: u64): (day: u64) {
    tsMs / DAY_MS
  }

  datatype BatchHeader = BatchHeader(
    v: nat, day: u64, firstSeq: u64, lastSeq: u64, count: u64, treeRoot: Digest)
  {
    /** The anchored value. */
    function Commitment(): (h: Digest) {
      CommitmentHash(v, day, firstSeq, lastSeq, count, treeRoot)
    }

    predicate WellFormed() {
      v == BATCH_VERSION && count > 0 && lastSeq >= firstSeq && lastSeq - firstSeq == count - 1
    }
  }

  datatype AnchorProof = AnchorProof(
    header: BatchHeader, seqNo: u64, leafIndex: u64, recordHash: Digest, path: seq<Digest>)

  /** The leaves of UTC day `day`, in their order. */
  function DayLeaves(day: u64, leaves: seq<RetainedLeaf>): (ls: seq<RetainedLeaf>)
    ensures |ls| <= |leaves|
  {
    if leaves == [] then [] else
      var rest := DayLeaves(day, leaves[..|leaves| - 1]);
      var last := leaves[|leaves| - 1];
      if UtcDay(last.tsMs) == day then rest + [last] else rest
  }

  /** A run of sequence numbers without gap or reorder. */
  predicate Contiguous(ls: seq<RetainedLeaf>) {
    forall i :: 0 <= i < |ls| ==> ls[i].seqNo == ls[0].seqNo + i
  }

  function Hashes(ls: seq<RetainedLeaf>): (hs: seq<Digest>)
    ensures |hs| == |ls|
    ensures forall i :: 0 <= i < |ls| ==> hs[i] == ls[i].hash
  {
    seq(|ls|, i requires 0 <= i < |ls| => ls[i].hash)
  }

  /** The header that commits to exactly the records `ls` of `day`. */
  function HeaderOver(day: u64, ls: seq<RetainedLeaf>): (h: BatchHeader)
    requires 0 < |ls| < TWO_64 && Contiguous(ls)
    ensures h.WellFormed()
  {
    BatchHeader(BATCH_VERSION, day, ls[0].seqNo, ls[|ls| - 1].seqNo, |ls|, TreeHash(Hashes(ls)))
  }

  /** The error for the first record of `ls` that does not follow its predecessor. */
  function GapError(day: u64, ls: seq<RetainedLeaf>): (e: AnchorError)
    requires !Contiguous(ls)
  {
    var k := |ls| - 1;
    if !Contiguous(ls[..k]) then GapError(day, ls[..k]) else
      var expected := ls[0].seqNo + k;
      SeqGap(day, if expected < TWO_64 then expected else TWO_64 - 1, ls[k].seqNo)
  }

  datatype DayBatch = DayBatch(header: BatchHeader, leafData: seq<Digest>, tree: Tree) {

    /** The batch is one that `BuildDayBatch` produced. */
    ghost predicate Valid() {
      && leafData != []
      && tree.Over(leafData)
      && header.WellFormed()
      && header.count == |leafData|
      && header.treeRoot == TreeHash(leafData)
    }

    function Proof(seqNo: u64): (p: Option<AnchorProof>) {
      if seqNo < header.firstSeq then None else
        var index := seqNo - header.firstSeq;
        if index >= |leafData| then None else
          match tree.Path(index)
          case None => None
          case Some(path) => Some(AnchorProof(header, seqNo, index, leafData[index], path))
    }

    /** The proofs of records `from..=lastSeq`. */
    function ProofsFrom(from: nat): (ps: seq<AnchorProof>)
      decreases header.lastSeq + 1 - from
    {
      if from > header.lastSeq then [] else
        var rest := ProofsFrom(from + 1);
        match Proof(from)
        case None => rest
        case Some(p) => [p] + rest
    }

    function Proofs(): (ps: seq<AnchorProof>) {
      ProofsFrom(header.firstSeq)
    }
  }

  /** Builds the batch of `day`; `None` when the day has no records, an error when its records are
      not one contiguous run. */
  method BuildDayBatch(day: u64, leaves: seq<RetainedLeaf>)
    returns (r: Result<Option<DayBatch>, AnchorError>)
    requires |leaves| < TWO_64
    ensures r.Err? <==> !Contiguous(DayLeaves(day, leaves))
    ensures r.Err? ==> r.error == GapError(day, DayLeaves(day, leaves))
    ensures r.Ok? ==> (r.value.None? <==> DayLeaves(day, leaves) == [])
    ensures r.Ok? && r.value.Some? ==>
              var b, ls := r.value.value, DayLeaves(day, leaves);
              b.Valid() && b.header == HeaderOver(day, ls) && b.leafData == Hashes(ls)
  {
    var firstSeq: Option<u64> := None;
    var leafData: seq<Digest> := [];
    var expected: u64 := 0;
    assert leaves[..0] == [];
    for i := 0 to |leaves|
      invariant TakenSoFar(DayLeaves(day, leaves[..i]), firstSeq, expected, leafData)
    {
      var l := leaves[i];
      ghost var ls := DayLeaves(day, leaves[..i]);
      NextLeaf(day, leaves, i);
      if UtcDay(l.tsMs) == day {
        if firstSeq.None? {
          TakesFirst(ls, firstSeq, expected, leafData, l);
          firstSeq := Some(l.seqNo);
          expected := l.seqNo;
        } else {
          if expected + 1 >= TWO_64 {
            GapHere(day, leaves, i, firstSeq, expected, leafData);
            return Err(SeqGap(day, expected, l.seqNo));
          }
          if l.seqNo != expected + 1 {
            GapHere(day, leaves, i, firstSeq, expected, leafData);
            return Err(SeqGap(day, expected + 1, l.seqNo));
          }
          TakesNext(ls, firstSeq, expected, leafData, l);
          expected := expected + 1;
        }
        leafData := leafData + [l.hash];
      }
    }
    assert leaves[..|leaves|] == leaves;
    var t := Build(leafData);
    match t {
      case None => return Ok(None);
      case Some(tree) =>
        MakesBatch(day, DayLeaves(day, leaves), firstSeq, expected, leafData, tree);
        var header := BatchHeader(BATCH_VERSION, day, firstSeq.value, expected, |leafData|, tree.Root());
        return Ok(Some(DayBatch(header, leafData, tree)));
    }
  }

  /** What the loop holds after the records `ls` of the day. */
  predicate TakenSoFar(ls: seq<RetainedLeaf>, firstSeq: Option<u64>, expected: u64, leafData: seq<Digest>) {
    && Contiguous(ls) && leafData == Hashes(ls)
    && (firstSeq.None? <==> ls == [])
    && (ls != [] ==> firstSeq == Some(ls[0].seqNo) && expected == ls[|ls| - 1].seqNo)
  }

  lemma NextLeaf(day: u64, leaves: seq<RetainedLeaf>, i: nat)
    requires i < |leaves|
    ensures DayLeaves(day, leaves[..i + 1])
         == DayLeaves(day, leaves[..i]) + if UtcDay(leaves[i].tsMs) == day then [leaves[i]] else []
  {
    assert leaves[..i + 1][..i] == leaves[..i] && leaves[..i + 1][i] == leaves[i];
  }

  lemma TakesFirst(ls: seq<RetainedLeaf>, firstSeq: Option<u64>, expected: u64, leafData: seq<Digest>, l: RetainedLeaf)
    requires TakenSoFar(ls, firstSeq, expected, leafData) && firstSeq.None?
    ensures TakenSoFar(ls + [l], Some(l.seqNo), l.seqNo, leafData + [l.hash])
  {
    assert ls + [l] == [l];
  }

  lemma TakesNext(ls: seq<RetainedLeaf>, firstSeq: Option<u64>, expected: u64, leafData: seq<Digest>, l: RetainedLeaf)
    requires TakenSoFar(ls, firstSeq, expected, leafData) && ls != [] && l.seqNo == expected + 1
    ensures TakenSoFar(ls + [l], firstSeq, l.seqNo, leafData + [l.hash])
  {
    assert Hashes(ls + [l]) == Hashes(ls) + [l.hash];
  }

  lemma GapHere(day: u64, leaves: seq<RetainedLeaf>, i: nat, firstSeq: Option<u64>, expected: u64, leafData: seq<Digest>)
    requires i < |leaves| && TakenSoFar(DayLeaves(day, leaves[..i]), firstSeq, expected, leafData) && firstSeq.Some?
    requires UtcDay(leaves[i].tsMs) == day && leaves[i].seqNo != expected + 1
    ensures !Contiguous(DayLeaves(day, leaves))
    ensures GapError(day, DayLeaves(day, leaves))
         == SeqGap(day, if expected + 1 < TWO_64 then expected + 1 else expected, leaves[i].seqNo)
  {
    var ls, l := DayLeaves(day, leaves[..i]), leaves[i];
    var more := ls + [l];
    NextLeaf(day, leaves, i);
    assert more[..|ls|] == ls && more[|ls|] == l && ls[0] == more[0];
    DayLeavesKeepPrefix(day, leaves, i + 1);
    FirstGapDecides(day, more, DayLeaves(day, leaves));
  }

  lemma MakesBatch(
      day: u64, ls: seq<RetainedLeaf>, firstSeq: Option<u64>, expected: u64, leafData: seq<Digest>, tree: Tree)
    requires TakenSoFar(ls, firstSeq, expected, leafData) && 0 < |ls| < TWO_64 && tree.Over(leafData)
    ensures var b := DayBatch(BatchHeader(BATCH_VERSION, day, firstSeq.value, expected, |leafData|, tree.Root()), leafData, tree);
            b.Valid() && b.header == HeaderOver(day, ls)
  {
    TreeRootIsTreeHash(tree, leafData);
  }

  lemma {:induction false} DayLeavesKeepPrefix(day: u64, leaves: seq<RetainedLeaf>, i: nat)
    requires i <= |leaves|
    ensures DayLeaves(day, leaves[..i]) <= DayLeaves(day, leaves)
    decreases |leaves|
  {
    if i < |leaves| {
      var init := leaves[..|leaves| - 1];
      DayLeavesKeepPrefix(day, init, i);
      assert init[..i] == leaves[..i];
    } else {
      assert leaves[..i] == leaves;
    }
  }

  lemma {:induction false} FirstGapDecides(day: u64, prefix: seq<RetainedLeaf>, ls: seq<RetainedLeaf>)
    requires prefix <= ls && !Contiguous(prefix)
    ensures !Contiguous(ls) && GapError(day, ls) == GapError(day, prefix)
    decreases |ls|
  {
    if |prefix| < |ls| {
      FirstGapDecides(day, prefix, ls[..|ls| - 1]);
    } else {
      assert prefix == ls;
    }
  }

  // ----- Proofs against an anchored value --------------------------------------------------------

  /** Checks a proof against an anchored value. */
  predicate VerifyProof(p: AnchorProof, anchored: Digest) {
    var h := p.header;
    && h.WellFormed()
    && h.Commitment() == anchored
    && p.leafIndex < h.count
    && h.firstSeq + p.leafIndex == p.seqNo
    && PathVerifies(p.recordHash, p.leafIndex, h.count, p.path, h.treeRoot)
  }

  /** Against a batch's anchored value, the proofs accepted are exactly those the batch hands out. */
  lemma AcceptedProofsAreTheBatchs(b: DayBatch, p: AnchorProof)
    requires b.Valid()
    ensures VerifyProof(p, b.header.Commitment()) <==> b.Proof(p.seqNo) == Some(p)
  {
    PathVerifiesExactly(b.leafData, p.recordHash, p.leafIndex, p.path);
    TreePathIsAuditPath(b.tree, b.leafData, p.leafIndex);
    if p.seqNo >= b.header.firstSeq {
      TreePathIsAuditPath(b.tree, b.leafData, p.seqNo - b.header.firstSeq);
    }
    TreeRootIsTreeHash(b.tree, b.leafData);
  }

  lemma EveryRecordHasAProof(b: DayBatch, seqNo: u64)
    requires b.Valid() && b.header.firstSeq <= seqNo <= b.header.lastSeq
    ensures b.Proof(seqNo).Some?
  {
    TreeRootIsTreeHash(b.tree, b.leafData);
  }

  lemma {:induction false} ProofsFromCover(b: DayBatch, from: nat)
    requires b.header.firstSeq <= from <= b.header.lastSeq + 1
    requires forall n: u64 :: b.header.firstSeq <= n <= b.header.lastSeq ==> b.Proof(n).Some?
    ensures |b.ProofsFrom(from)| == b.header.lastSeq + 1 - from
    ensures forall i :: 0 <= i < |b.ProofsFrom(from)| ==> b.Proof(from + i) == Some(b.ProofsFrom(from)[i])
    decreases b.header.lastSeq + 1 - from
  {
    if from <= b.header.lastSeq {
      ProofsFromCover(b, from + 1);
      var ps, rest := b.ProofsFrom(from), b.ProofsFrom(from + 1);
      assert ps == [b.Proof(from).value] + rest;
      forall i | 0 <= i < |ps| ensures b.Proof(from + i) == Some(ps[i]) {
        if i > 0 {
          assert ps[i] == rest[i - 1];
          assert from + i == (from + 1) + (i - 1);
        }
      }
    }
  }

  /** A batch hands out one proof per record, in `seq` order, and every one verifies. */
  lemma EveryProofVerifies(b: DayBatch)
    requires b.Valid()
    ensures |b.Proofs()| == b.header.count
    ensures forall i :: 0 <= i < |b.Proofs()| ==>
              && b.Proofs()[i].seqNo == b.header.firstSeq + i
              && b.Proofs()[i].recordHash == b.leafData[i]
              && VerifyProof(b.Proofs()[i], b.header.Commitment())
  {
    forall n: u64 | b.header.firstSeq <= n <= b.header.lastSeq ensures b.Proof(n).Some? {
      EveryRecordHasAProof(b, n);
    }
    ProofsFromCover(b, b.header.firstSeq);
    forall i | 0 <= i < |b.Proofs()|
      ensures && b.Proofs()[i].seqNo == b.header.firstSeq + i
              && b.Proofs()[i].recordHash == b.leafData[i]
              && VerifyProof(b.Proofs()[i], b.header.Commitment())
    {
      assert b.Proof(b.header.firstSeq + i) == Some(b.Proofs()[i]);
      AcceptedProofsAreTheBatchs(b, b.Proofs()[i]);
    }
  }

  /** One anchored value and one `seq` admit one proof, so a proof for one record can never be
      replayed for another. */
  lemma ProofsBindSeqToRecord(p: AnchorProof, q: AnchorProof, anchored: Digest)
    requires VerifyProof(p, anchored) && VerifyProof(q, anchored)
    requires p.seqNo == q.seqNo
    ensures p == q
  {
    var h := p.header;
    assert h == q.header;
    RecomputeIsInjective(p.leafIndex, h.count - 1,
                         LeafHash(p.recordHash), p.path, LeafHash(q.recordHash), q.path);
  }
}
