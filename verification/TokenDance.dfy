/** Master-mirror storage (apohara_context_forge/storage/token_dance.py): one full cache and
    sparse per-agent differences. A cache is an array over exact reals; a norm exceeds a
    threshold when its square does. */
module TokenDance {
  import opened Arithmetic
  import opened Wrappers
  import opened Maps
  import opened Vectors
  import opened NdArrays

  /** values holds one block of shape blockShape per index. */
  datatype SparseKVDiff = SparseKVDiff(
    indices: seq<nat>, blockShape: seq<nat>, values: seq<Block>, totalBlocks: nat, threshold: real)
  {
    ghost predicate Valid() {
      |indices| == |values| && forall v :: v in values ==> |v| == Volume(blockShape)
    }
  }

  datatype Error = RuntimeError | ValueError | KeyError | IndexError

  datatype Result<+T> = Ok(value: T) | Err(error: Error)

  /** norm(b) > threshold */
  predicate Exceeds(b: Block, threshold: real) {
    threshold < 0.0 || SumSquares(b) > threshold * threshold
  }

  /** Caches of equally many, equally wide blocks. */
  ghost predicate SameShape(a: seq<Block>, b: seq<Block>) {
    |a| == |b| && forall i :: 0 <= i < |a| ==> |a[i]| == |b[i]|
  }

  ghost predicate Increasing(s: seq<nat>, bound: nat) {
    && (forall i, j :: 0 <= i < j < |s| ==> s[i] < s[j])
    && forall i :: 0 <= i < |s| ==> s[i] < bound
  }

  // ----- differences

  /** The indices among the first n blocks whose difference exceeds the threshold. */
  function DiffIndices(kv: seq<Block>, master: seq<Block>, threshold: real, n: nat): (s: seq<nat>)
    requires SameShape(kv, master) && n <= |kv|
  {
    if n == 0 then []
    else
      var rest := DiffIndices(kv, master, threshold, n - 1);
      if Exceeds(Sub(kv[n - 1], master[n - 1]), threshold) then rest + [n - 1] else rest
  }

  lemma {:induction false} DiffIndicesAre(kv: seq<Block>, master: seq<Block>, threshold: real, n: nat)
    requires SameShape(kv, master) && n <= |kv|
    ensures Increasing(DiffIndices(kv, master, threshold, n), n)
    ensures forall i :: 0 <= i < n ==>
              (i in DiffIndices(kv, master, threshold, n) <==> Exceeds(Sub(kv[i], master[i]), threshold))
    ensures forall i :: 0 <= i < n ==>
              (i in DiffIndices(kv, master, threshold, n) <==>
               threshold < 0.0 || SumSquares(Sub(kv[i], master[i])) > threshold * threshold)
  {
    if n > 0 {
      DiffIndicesAre(kv, master, threshold, n - 1);
    }
  }

  /** out[indices] = out[indices] + values, one index after the other. */
  function Patch(master: seq<Block>, indices: seq<nat>, values: seq<Block>): (out: seq<Block>)
    requires |indices| == |values|
    requires forall k :: 0 <= k < |indices| ==> indices[k] < |master| && |values[k]| == |master[indices[k]]|
    ensures |out| == |master|
  {
    if indices == [] then master else
      var n := |indices| - 1;
      Patch(master, indices[..n], values[..n])[indices[n] := Add(master[indices[n]], values[n])]
  }

  lemma {:induction false} PatchAt(master: seq<Block>, indices: seq<nat>, values: seq<Block>)
    requires |indices| == |values| && Increasing(indices, |master|)
    requires forall k :: 0 <= k < |indices| ==> |values[k]| == |master[indices[k]]|
    ensures forall k :: 0 <= k < |indices| ==>
              Patch(master, indices, values)[indices[k]] == Add(master[indices[k]], values[k])
    ensures forall i :: 0 <= i < |master| && i !in indices ==> Patch(master, indices, values)[i] == master[i]
  {
    if indices != [] {
      var n := |indices| - 1;
      PatchAt(master, indices[..n], values[..n]);
      forall i | 0 <= i < |master| && i !in indices ensures Patch(master, indices, values)[i] == master[i] {
        assert i !in indices[..n] && i != indices[n];
      }
    }
  }

  /** A difference that fits a master of the given blocks. */
  ghost predicate Fits(diff: SparseKVDiff, master: seq<Block>) {
    && |diff.indices| == |diff.values| && Increasing(diff.indices, |master|)
    && forall k :: 0 <= k < |diff.indices| ==> |diff.values[k]| == |master[diff.indices[k]]|
  }

  ghost predicate Near(a: Block, b: Block, threshold: real) {
    |a| == |b| && (a == b || !Exceeds(Sub(a, b), threshold))
  }

  /** What reconstruction yields for a mirror is within the threshold of `want` at every
      block that is not stored, and equal to it at every block that is. */
  ghost predicate FaithfulTo(master: seq<Block>, diff: SparseKVDiff, want: seq<Block>, threshold: real) {
    && SameShape(want, master) && Fits(diff, master)
    && forall i :: 0 <= i < |master| ==>
         var got := Patch(master, diff.indices, diff.values)[i];
         if i in diff.indices then got == want[i] else got == master[i] && Near(want[i], master[i], threshold)
  }

  function DiffAgainst(kv: seq<Block>, master: seq<Block>, blockShape: seq<nat>, threshold: real): (d: SparseKVDiff)
    requires SameShape(kv, master)
  {
    var indices := DiffIndices(kv, master, threshold, |kv|);
    DiffIndicesAre(kv, master, threshold, |kv|);
    SparseKVDiff(indices, blockShape,
                 seq(|indices|, k requires 0 <= k < |indices| => Sub(kv[indices[k]], master[indices[k]])),
                 |master|, threshold)
  }

  lemma DiffAgainstFits(kv: seq<Block>, master: seq<Block>, blockShape: seq<nat>, threshold: real)
    requires SameShape(kv, master)
    ensures Fits(DiffAgainst(kv, master, blockShape, threshold), master)
  {
    DiffIndicesAre(kv, master, threshold, |kv|);
  }

  lemma RestoredBlock(kv: Block, master: Block)
    requires |kv| == |master|
    ensures Add(master, Sub(kv, master)) == kv
  {
  }

  /** A fresh difference reconstructs the registered blocks, and stores only what it must. */
  lemma DiffIsFaithful(kv: seq<Block>, master: seq<Block>, blockShape: seq<nat>, threshold: real)
    requires SameShape(kv, master)
    ensures FaithfulTo(master, DiffAgainst(kv, master, blockShape, threshold), kv, threshold)
  {
    var d := DiffAgainst(kv, master, blockShape, threshold);
    DiffAgainstFits(kv, master, blockShape, threshold);
    PatchAt(master, d.indices, d.values);
    var out := Patch(master, d.indices, d.values);
    forall i | 0 <= i < |master|
      ensures if i in d.indices then out[i] == kv[i] else out[i] == master[i] && Near(kv[i], master[i], threshold)
    {
      if i in d.indices {
        var k :| 0 <= k < |d.indices| && d.indices[k] == i;
        RestoredBlock(kv[i], master[i]);
      } else {
        DiffIndicesAre(kv, master, threshold, |kv|);
      }
    }
  }

  lemma PatchExtends(master: seq<Block>, more: seq<Block>, indices: seq<nat>, values: seq<Block>)
    requires |indices| == |values| && Increasing(indices, |master|)
    requires forall k :: 0 <= k < |indices| ==> |values[k]| == |master[indices[k]]|
    ensures Patch(master + more, indices, values) == Patch(master, indices, values) + more
  {
    PatchAt(master, indices, values);
    PatchAt(master + more, indices, values);
    forall i | 0 <= i < |master + more|
      ensures Patch(master + more, indices, values)[i] == (Patch(master, indices, values) + more)[i]
    {
      if i in indices {
        var k :| 0 <= k < |indices| && indices[k] == i;
      }
    }
  }

  /** Appending shared blocks to the master extends every reconstruction by exactly them. */
  lemma ExtendedStaysFaithful(master: seq<Block>, more: seq<Block>, d: SparseKVDiff, e: SparseKVDiff,
                              want: seq<Block>, threshold: real)
    requires FaithfulTo(master, d, want, threshold) && e.indices == d.indices && e.values == d.values
    ensures FaithfulTo(master + more, e, want + more, threshold)
  {
    PatchExtends(master, more, d.indices, d.values);
  }

  // ----- adding a difference into an array

  /** out[indices] = out[indices] + values in a copy of the master, with numpy's rules: an
      index beyond it raises IndexError, values that do not broadcast to the blocks indexed
      raise ValueError. Without indices nothing is added. */
  function AddInto(master: NdArray, d: SparseKVDiff): Result<NdArray>
    requires master.Valid() && |master.shape| > 0 && d.Valid()
  {
    var inner := master.shape[1..];
    if d.indices == [] then Ok(master)
    else if exists k :: 0 <= k < |d.indices| && d.indices[k] >= |master.blocks| then Err(IndexError)
    else if !Broadcasts([|d.indices|] + d.blockShape, [|d.indices|] + inner) then Err(ValueError)
    else
      assert forall k :: 0 <= k < |d.indices| ==> master.blocks[d.indices[k]] in master.blocks;
      Ok(NdArray(master.shape, Patch(master.blocks, d.indices, SpreadAll(d.values, d.blockShape, inner))))
  }

  /** The difference was taken against blocks of the master's shape. */
  ghost predicate FitsArray(d: SparseKVDiff, master: NdArray)
    requires |master.shape| > 0
  {
    d.Valid() && Fits(d, master.blocks) && (d.indices == [] || d.blockShape == master.shape[1..])
  }

  /** Such a difference is added as it is. */
  lemma AddedAsIs(master: NdArray, d: SparseKVDiff)
    requires master.Valid() && |master.shape| > 0 && FitsArray(d, master)
    ensures AddInto(master, d) == Ok(NdArray(master.shape, Patch(master.blocks, d.indices, d.values)))
  {
    if d.indices != [] {
      SpreadItself(d.values, d.blockShape);
    }
  }

  /** Replacing the master under kept differences moves every reconstructed block by as much
      as the master block moved, if its shape is kept; in any case the reconstruction is
      unchanged only by an unchanged master. */
  lemma ReplacedMasterDrifts(before: NdArray, after: NdArray, d: SparseKVDiff)
    requires before.Valid() && after.Valid() && |before.shape| > 0 && |after.shape| > 0 && FitsArray(d, before)
    ensures AddInto(after, d) == AddInto(before, d) <==> after == before
    ensures AddInto(before, d).Ok?
    ensures before.shape == after.shape ==>
              && AddInto(after, d).Ok?
              && var p, q := AddInto(before, d).value.blocks, AddInto(after, d).value.blocks;
              && |p| == |q| == |before.blocks| == |after.blocks|
              && forall i :: 0 <= i < |before.blocks| ==>
                   |p[i]| == |q[i]| == |before.blocks[i]| == |after.blocks[i]|
                   && Sub(q[i], p[i]) == Sub(after.blocks[i], before.blocks[i])
  {
    AddedAsIs(before, d);
    if before.shape == after.shape {
      ShapesAgree(before, after);
      AddedAsIs(after, d);
      BlocksDrift(before.blocks, after.blocks, d);
    }
  }

  lemma BlocksDrift(before: seq<Block>, after: seq<Block>, d: SparseKVDiff)
    requires SameShape(before, after) && Fits(d, before)
    ensures var p, q := Patch(before, d.indices, d.values), Patch(after, d.indices, d.values);
            && (forall i :: 0 <= i < |before| ==>
                  |p[i]| == |q[i]| == |before[i]| && Sub(q[i], p[i]) == Sub(after[i], before[i]))
            && (p == q <==> before == after)
  {
    var p, q := Patch(before, d.indices, d.values), Patch(after, d.indices, d.values);
    PatchAt(before, d.indices, d.values);
    PatchAt(after, d.indices, d.values);
    forall i | 0 <= i < |before|
      ensures |p[i]| == |q[i]| == |before[i]| && Sub(q[i], p[i]) == Sub(after[i], before[i])
    {
      if i in d.indices {
        var k :| 0 <= k < |d.indices| && d.indices[k] == i;
        assert Sub(Add(after[i], d.values[k]), Add(before[i], d.values[k])) == Sub(after[i], before[i]);
      }
    }
    if p == q {
      forall i | 0 <= i < |before| ensures before[i] == after[i] {
        MinusZero(q[i], p[i], after[i], before[i]);
      }
    }
  }

  lemma MinusZero(a: Block, b: Block, c: Block, d: Block)
    requires |a| == |b| == |c| == |d| && a == b && Sub(a, b) == Sub(c, d)
    ensures c == d
  {
    forall k | 0 <= k < |c| ensures c[k] == d[k] {
      assert Sub(a, b)[k] == 0.0;
      assert Sub(c, d)[k] == c[k] - d[k];
    }
  }

  /** Reconstruction from this master gives back `want`, shape and blocks. */
  ghost predicate FaithfulArray(master: NdArray, d: SparseKVDiff, want: NdArray, threshold: real)
    requires |master.shape| > 0
  {
    want.shape == master.shape && FitsArray(d, master) && FaithfulTo(master.blocks, d, want.blocks, threshold)
  }

  /** Every block that is not stored is within the threshold of the wanted one, in the L2 norm. */
  ghost predicate AllWithin(want: seq<Block>, got: seq<Block>, stored: seq<nat>, threshold: real)
    requires |want| == |got|
  {
    forall i :: 0 <= i < |got| && i !in stored ==>
      |want[i]| == |got[i]| && SumSquares(Sub(want[i], got[i])) <= threshold * threshold
  }

  lemma FaithfulIsWithin(master: NdArray, d: SparseKVDiff, want: NdArray, threshold: real)
    requires |master.shape| > 0 && FaithfulArray(master, d, want, threshold) && threshold >= 0.0
    ensures AllWithin(want.blocks, Patch(master.blocks, d.indices, d.values), d.indices, threshold)
  {
    var got := Patch(master.blocks, d.indices, d.values);
    forall i | 0 <= i < |got| && i !in d.indices
      ensures |want.blocks[i]| == |got[i]| && SumSquares(Sub(want.blocks[i], got[i])) <= threshold * threshold
    {
      NearMeans(want.blocks[i], got[i], threshold);
    }
  }

  /** What a mirror must satisfy before its master is replaced to be faithful afterwards: the
      master keeps its shape, every stored block keeps its value, and every other block of the
      new master is within the threshold of what the mirror wants. */
  ghost predicate Outlives(before: NdArray, after: NdArray, d: SparseKVDiff, want: NdArray, threshold: real) {
    && before.shape == after.shape && |want.blocks| == |after.blocks| == |before.blocks|
    && forall i :: 0 <= i < |before.blocks| ==>
         if i in d.indices then after.blocks[i] == before.blocks[i]
         else Near(want.blocks[i], after.blocks[i], threshold)
  }

  /** A mirror kept across a new registration of its master stays faithful exactly then. */
  lemma FaithfulAfterIff(before: NdArray, after: NdArray, d: SparseKVDiff, want: NdArray, threshold: real)
    requires before.Valid() && after.Valid() && |before.shape| > 0 && |after.shape| > 0
    requires FaithfulArray(before, d, want, threshold)
    ensures FaithfulArray(after, d, want, threshold) <==> Outlives(before, after, d, want, threshold)
  {
    if before.shape == after.shape {
      ShapesAgree(before, after);
      BlocksAfterIff(before.blocks, after.blocks, d, want.blocks, threshold);
    }
  }

  lemma BlocksAfterIff(before: seq<Block>, after: seq<Block>, d: SparseKVDiff, want: seq<Block>, threshold: real)
    requires FaithfulTo(before, d, want, threshold) && SameShape(before, after)
    ensures FaithfulTo(after, d, want, threshold) <==>
            forall i :: 0 <= i < |before| ==>
              if i in d.indices then after[i] == before[i] else Near(want[i], after[i], threshold)
  {
    PatchAt(before, d.indices, d.values);
    PatchAt(after, d.indices, d.values);
    forall i | 0 <= i < |before|
      ensures var got := Patch(after, d.indices, d.values)[i];
              if i in d.indices then got == want[i] <==> after[i] == before[i] else got == after[i]
    {
      if i in d.indices {
        var k :| 0 <= k < |d.indices| && d.indices[k] == i;
        SameSum(before[i], after[i], d.values[k]);
      }
    }
  }

  lemma SameSum(a: Block, b: Block, v: Block)
    requires |a| == |b| == |v|
    ensures Add(b, v) == Add(a, v) <==> b == a
  {
    if Add(b, v) == Add(a, v) {
      forall k | 0 <= k < |a| ensures b[k] == a[k] {
        assert Add(b, v)[k] == Add(a, v)[k];
      }
    }
  }

  /** Re-registering a master with a moved block breaks the mirror that stores this block. */
  lemma MovedMasterBreaks()
    ensures var before, after, want := NdArray([1, 1], [[0.0]]), NdArray([1, 1], [[1.0]]), NdArray([1, 1], [[5.0]]);
            && SameShape(want.blocks, before.blocks)
            && var d := DiffAgainst(want.blocks, before.blocks, [1], 1.0);
            FaithfulArray(before, d, want, 1.0) && !FaithfulArray(after, d, want, 1.0)
  {
    var before, after, want := NdArray([1, 1], [[0.0]]), NdArray([1, 1], [[1.0]]), NdArray([1, 1], [[5.0]]);
    var d := DiffAgainst(want.blocks, before.blocks, [1], 1.0);
    DiffIsFaithful(want.blocks, before.blocks, [1], 1.0);
    DiffIndicesAre(want.blocks, before.blocks, 1.0, 1);
    assert Volume([1]) == 1 by {
      assert [1][..0] == [];
    }
    assert Sub(want.blocks[0], before.blocks[0]) == [5.0];
    assert SumSquares([5.0]) == 5.0 * 5.0 + SumSquares([]);
    assert 0 in d.indices;
    assert before.shape[1..] == [1];
    FaithfulAfterIff(before, after, d, want, 1.0);
    assert after.blocks[0][0] != before.blocks[0][0];
  }

  lemma SixNumbers()
    ensures Volume([2, 3]) == Volume([6]) == 6
  {
    VolumeCons(2, [3]);
    VolumeCons(3, []);
    VolumeCons(6, []);
    assert [2] + [3] == [2, 3] && [3] + [] == [3] && [6] + [] == [6];
  }

  /** Re-registering a master of six numbers in blocks of (6) instead of (2, 3) makes the
      reconstruction of a mirror that stores a block raise, although no number moved. */
  lemma ReshapedMasterRaises(block: Block, v: Block)
    requires |block| == |v| == 6
    ensures var before, after := NdArray([1, 2, 3], [block]), NdArray([1, 6], [block]);
            var d := SparseKVDiff([0], [2, 3], [v], 1, 0.0);
            && before.Valid() && after.Valid() && d.Valid() && FitsArray(d, before)
            && AddInto(before, d).Ok? && AddInto(after, d) == Err(ValueError)
  {
    var before, after := NdArray([1, 2, 3], [block]), NdArray([1, 6], [block]);
    var d := SparseKVDiff([0], [2, 3], [v], 1, 0.0);
    assert before.shape[1..] == [2, 3] && after.shape[1..] == [6];
    SixNumbers();
    AddedAsIs(before, d);
    assert [1] + [2, 3] == [1, 2, 3] && [1] + [6] == [1, 6];
    assert !Broadcasts([1, 2, 3], [1, 6]);
  }

  /** Blockwise within the threshold. */
  ghost predicate AllNear(want: seq<Block>, got: seq<Block>, threshold: real) {
    |want| == |got| && forall i :: 0 <= i < |want| ==> Near(want[i], got[i], threshold)
  }

  /** No block of the difference is one that would be stored. */
  ghost predicate NoneExceeds(kv: seq<Block>, master: seq<Block>, threshold: real)
    requires SameShape(kv, master)
  {
    forall i :: 0 <= i < |kv| ==> !Exceeds(Sub(kv[i], master[i]), threshold)
  }

  /** A cache stands for another of its shape exactly when no block of their difference
      exceeds the threshold, or, as only a negative threshold needs, they are the same. */
  lemma StandsForIff(kv: seq<Block>, master: seq<Block>, threshold: real)
    requires SameShape(kv, master)
    ensures AllNear(kv, master, threshold) <==> NoneExceeds(kv, master, threshold) || kv == master
    ensures NoneExceeds(kv, master, threshold) <==> DiffIndices(kv, master, threshold, |kv|) == []
  {
    var s := DiffIndices(kv, master, threshold, |kv|);
    DiffIndicesAre(kv, master, threshold, |kv|);
    assert s != [] ==> s[0] in s;
    if AllNear(kv, master, threshold) && threshold >= 0.0 {
      forall i | 0 <= i < |kv| ensures !Exceeds(Sub(kv[i], master[i]), threshold) {
        assert Near(kv[i], master[i], threshold);
        EqualIsNear(kv[i], master[i]);
        assert threshold * threshold >= 0.0;
      }
    }
  }

  /** A mirror that stores a block is lost under the master's own name. */
  lemma OwnNameLoses()
    ensures SameShape([[5.0]], [[0.0]]) && !AllNear([[5.0]], [[0.0]], 1.0)
  {
    var kv, master: seq<Block> := [[5.0]], [[0.0]];
    assert Sub(kv[0], master[0]) == [5.0];
    assert SumSquares([5.0]) == 5.0 * 5.0 + SumSquares([]);
    assert Exceeds(Sub(kv[0], master[0]), 1.0);
    assert kv[0][0] != master[0][0];
    StandsForIff(kv, master, 1.0);
  }

  lemma {:induction false} ZeroHasNoNorm(b: Block)
    requires forall k :: 0 <= k < |b| ==> b[k] == 0.0
    ensures SumSquares(b) == 0.0
  {
    if b != [] {
      ZeroHasNoNorm(b[1..]);
    }
  }

  /** Near blocks differ by at most the threshold in the L2 norm. */
  lemma NearMeans(a: Block, b: Block, threshold: real)
    requires Near(a, b, threshold) && threshold >= 0.0
    ensures |a| == |b| && SumSquares(Sub(a, b)) <= threshold * threshold
  {
    EqualIsNear(a, b);
    assert threshold * threshold >= 0.0;
  }

  lemma EqualIsNear(a: Block, b: Block)
    requires |a| == |b|
    ensures a == b ==> SumSquares(Sub(a, b)) == 0.0
  {
    if a == b {
      ZeroHasNoNorm(Sub(a, b));
    }
  }

  /** Every difference is in range of the master, and every mirror but one under the master's
      own name `me` reconstructs what is expected of it. */
  ghost predicate AllFaithful(master: NdArray, me: string, mirrors: map<string, SparseKVDiff>,
                              expected: map<string, NdArray>, threshold: real)
    requires |master.shape| > 0
  {
    && mirrors.Keys == expected.Keys
    && AllInRange(mirrors, |master.blocks|)
    && forall a :: a in mirrors && a != me ==> FaithfulArray(master, mirrors[a], expected[a], threshold)
  }

  /** What must hold of all mirrors when their master is registered again under its own id. */
  ghost predicate AllOutlive(before: NdArray, after: NdArray, me: string, mirrors: map<string, SparseKVDiff>,
                             expected: map<string, NdArray>, threshold: real)
    requires mirrors.Keys == expected.Keys
  {
    forall a :: a in mirrors ==>
      if a == me then Increasing(mirrors[a].indices, |after.blocks|)
      else Outlives(before, after, mirrors[a], expected[a], threshold)
  }

  lemma AllFaithfulAfterIff(before: NdArray, after: NdArray, me: string, mirrors: map<string, SparseKVDiff>,
                            expected: map<string, NdArray>, threshold: real)
    requires before.Valid() && after.Valid() && |before.shape| > 0 && |after.shape| > 0
    requires AllFaithful(before, me, mirrors, expected, threshold)
    ensures AllFaithful(after, me, mirrors, expected, threshold) <==>
            AllOutlive(before, after, me, mirrors, expected, threshold)
  {
    forall a | a in mirrors && a != me
      ensures FaithfulArray(after, mirrors[a], expected[a], threshold) <==>
              Outlives(before, after, mirrors[a], expected[a], threshold)
    {
      FaithfulAfterIff(before, after, mirrors[a], expected[a], threshold);
    }
  }

  lemma FreshIsNear(kv: seq<Block>, master: seq<Block>, blockShape: seq<nat>, threshold: real)
    requires SameShape(kv, master)
    ensures var d := DiffAgainst(kv, master, blockShape, threshold);
            Fits(d, master) && AllNear(kv, Patch(master, d.indices, d.values), threshold)
  {
    DiffIsFaithful(kv, master, blockShape, threshold);
  }

  /** A fresh difference of two arrays of one shape. */
  ghost function DiffOf(kv: NdArray, master: NdArray, threshold: real): (d: SparseKVDiff)
    requires kv.Valid() && master.Valid() && kv.shape == master.shape && |kv.shape| > 0
  {
    ShapesAgree(kv, master);
    DiffAgainst(kv.blocks, master.blocks, master.shape[1..], threshold)
  }

  lemma DiffOfIsFaithful(kv: NdArray, master: NdArray, threshold: real)
    requires kv.Valid() && master.Valid() && kv.shape == master.shape && |kv.shape| > 0
    ensures var d := DiffOf(kv, master, threshold); d.Valid() && FaithfulArray(master, d, kv, threshold)
  {
    ShapesAgree(kv, master);
    DiffIsFaithful(kv.blocks, master.blocks, master.shape[1..], threshold);
    var d := DiffOf(kv, master, threshold);
    forall k | 0 <= k < |d.indices| ensures |d.values[k]| == Volume(d.blockShape) {
      assert master.blocks[d.indices[k]] in master.blocks;
    }
  }

  /** A difference lists, in increasing order, the blocks whose L2 distance from the master
      exceeds the threshold (all blocks for a negative one), and their distances. */
  ghost predicate StoresExactly(d: SparseKVDiff, kv: NdArray, master: NdArray, threshold: real)
    requires |master.shape| > 0
  {
    && SameShape(kv.blocks, master.blocks) && Increasing(d.indices, |master.blocks|) && |d.values| == |d.indices|
    && d.blockShape == master.shape[1..] && d.totalBlocks == master.shape[0] && d.threshold == threshold
    && (forall i :: 0 <= i < |kv.blocks| ==>
          (i in d.indices <==>
           threshold < 0.0 || SumSquares(Sub(kv.blocks[i], master.blocks[i])) > threshold * threshold))
    && forall k :: 0 <= k < |d.indices| ==> d.values[k] == Sub(kv.blocks[d.indices[k]], master.blocks[d.indices[k]])
  }

  lemma DiffStoresExactly(kv: NdArray, master: NdArray, threshold: real)
    requires kv.Valid() && master.Valid() && kv.shape == master.shape && |kv.shape| > 0
    ensures StoresExactly(DiffOf(kv, master, threshold), kv, master, threshold)
  {
    ShapesAgree(kv, master);
    DiffIndicesAre(kv.blocks, master.blocks, threshold, |kv.blocks|);
  }

  lemma RegisteredStaysFaithful(master: NdArray, me: string, mirrors: map<string, SparseKVDiff>,
                                expected: map<string, NdArray>, threshold: real, agentId: string, kv: NdArray)
    requires kv.Valid() && master.Valid() && kv.shape == master.shape && |kv.shape| > 0
    requires AllFaithful(master, me, mirrors, expected, threshold)
    ensures AllFaithful(master, me, mirrors[agentId := DiffOf(kv, master, threshold)], expected[agentId := kv],
                        threshold)
  {
    DiffOfIsFaithful(kv, master, threshold);
  }

  // ----- the storage object

  class TokenDanceStorage {
    const diffThreshold: real
    var masterId: Option<string>
    var masterCache: map<string, NdArray>
    var mirrors: map<string, SparseKVDiff>
    /** Per mirror, the blocks it was last registered with and all shared blocks appended since. */
    ghost var expected: map<string, NdArray>

    ghost predicate Valid()
      reads this
    {
      && (masterId.None? ==> masterCache == map[] && mirrors == map[])
      && (masterId.Some? ==> masterCache.Keys == {masterId.value} && Master().Valid() && |Master().shape| >= 2)
      && (forall a :: a in mirrors ==> mirrors[a].Valid())
    }

    function Master(): NdArray
      requires masterId.Some? && masterId.value in masterCache
      reads this
    {
      masterCache[masterId.value]
    }

    /** Every mirror reconstructs what is expected of it, unless it bears the master's name. */
    ghost predicate Faithful()
      requires Valid()
      reads this
    {
      && mirrors.Keys == expected.Keys
      && (masterId.Some? ==> AllFaithful(Master(), masterId.value, mirrors, expected, diffThreshold))
    }

    /** What reconstruction returns for an agent. */
    ghost function Returned(agentId: string): Result<NdArray>
      requires Valid()
      reads this
    {
      if masterId.None? then Err(RuntimeError)
      else if masterId.value == agentId then Ok(Master())
      else if agentId !in mirrors then Err(KeyError)
      else AddInto(Master(), mirrors[agentId])
    }

    /** Reconstruction gives back the wanted array, blockwise within the threshold. */
    ghost predicate Represents(agentId: string, want: NdArray)
      requires Valid()
      reads this
    {
      var r := Returned(agentId);
      r.Ok? && r.value.shape == want.shape && AllNear(want.blocks, r.value.blocks, diffThreshold)
    }

    constructor (diffThreshold: real)
      ensures Valid() && Faithful() && masterId == None && this.diffThreshold == diffThreshold
    {
      this.diffThreshold := diffThreshold;
      masterId, masterCache, mirrors, expected := None, map[], map[], map[];
    }

    /** Keeps every mirror when the master registers again under its own id, and they stay
        faithful exactly when they outlive the change. */
    method RegisterMaster(agentId: string, kv: NdArray) returns (r: Result<()>)
      requires Valid() && kv.Valid()
      modifies this
      ensures Valid()
      ensures r == if |kv.shape| < 2 then Err(ValueError) else Ok(())
      ensures r.Err? ==> masterId == old(masterId) && masterCache == old(masterCache)
      ensures r.Err? ==> mirrors == old(mirrors) && expected == old(expected)
      ensures r.Ok? ==> masterId == Some(agentId) && Master() == kv
      ensures r.Ok? ==> if old(masterId) == Some(agentId) then mirrors == old(mirrors) && expected == old(expected)
                        else mirrors == map[] && expected == map[]
      ensures old(Faithful()) && (r.Err? || old(masterId) != Some(agentId)) ==> Faithful()
      ensures old(Faithful()) && r.Ok? && old(masterId) == Some(agentId) ==>
                (Faithful() <==> AllOutlive(old(Master()), kv, agentId, mirrors, expected, diffThreshold))
    {
      if |kv.shape| < 2 {
        return Err(ValueError);
      }
      if masterId == Some(agentId) && Faithful() {
        AllFaithfulAfterIff(Master(), kv, agentId, mirrors, expected, diffThreshold);
      }
      SetMaster(agentId, kv);
      r := Ok(());
    }

    method SetMaster(agentId: string, kv: NdArray)
      requires Valid() && kv.Valid() && |kv.shape| >= 2
      modifies this
      ensures Valid() && masterId == Some(agentId) && Master() == kv
      ensures if old(masterId) == Some(agentId) then mirrors == old(mirrors) && expected == old(expected)
              else mirrors == map[] && expected == map[]
    {
      if masterId != Some(agentId) {
        expected := map[];
      }
      if masterId != None && masterId != Some(agentId) {
        mirrors, masterCache := map[], map[];
      }
      masterId, masterCache := Some(agentId), masterCache[agentId := kv];
    }

    /** Needs a master of the same shape with at least one block: without one the norm cannot
        be taken. A mirror is represented; one under the master's own name only when it
        stores no block, or is the master. */
    method RegisterMirror(agentId: string, kv: NdArray) returns (r: Result<SparseKVDiff>)
      requires Valid() && kv.Valid()
      modifies this
      ensures Valid() && masterId == old(masterId) && masterCache == old(masterCache)
      ensures r.Err? ==> mirrors == old(mirrors) && expected == old(expected)
      ensures masterId.None? <==> r == Err(RuntimeError)
      ensures masterId.Some? ==> (r.Ok? <==> kv.shape == Master().shape && kv.shape[0] > 0)
      ensures masterId.Some? ==> r.Ok? || r == Err(ValueError)
      ensures r.Ok? ==> r.value == DiffOf(kv, Master(), diffThreshold)
      ensures r.Ok? ==> mirrors == old(mirrors)[agentId := r.value] && expected == old(expected)[agentId := kv]
      ensures old(Faithful()) ==> Faithful()
      ensures r.Ok? ==> StoresExactly(r.value, kv, Master(), diffThreshold)
      ensures r.Ok? && masterId != Some(agentId) ==> Represents(agentId, kv)
      ensures r.Ok? && masterId == Some(agentId) ==>
                && SameShape(kv.blocks, Master().blocks)
                && (Represents(agentId, kv) <==>
                    NoneExceeds(kv.blocks, Master().blocks, diffThreshold) || kv == Master())
    {
      ghost var faithful, mirrors0, expected0 := Faithful(), mirrors, expected;
      r := StoreMirror(agentId, kv);
      if r.Ok? {
        if faithful {
          RegisteredStaysFaithful(Master(), masterId.value, mirrors0, expected0, diffThreshold, agentId, kv);
        }
        DiffStoresExactly(kv, Master(), diffThreshold);
        if masterId == Some(agentId) {
          OwnNameMirror(this, kv);
        } else {
          MirrorRepresents(this, agentId, kv);
        }
      }
    }

    method StoreMirror(agentId: string, kv: NdArray) returns (r: Result<SparseKVDiff>)
      requires Valid() && kv.Valid()
      modifies this
      ensures Valid() && masterId == old(masterId) && masterCache == old(masterCache)
      ensures r.Err? ==> mirrors == old(mirrors) && expected == old(expected)
      ensures masterId.None? <==> r == Err(RuntimeError)
      ensures masterId.Some? ==> (r.Ok? <==> kv.shape == Master().shape && kv.shape[0] > 0)
      ensures masterId.Some? ==> r.Ok? || r == Err(ValueError)
      ensures r.Ok? ==> r.value == DiffOf(kv, Master(), diffThreshold)
      ensures r.Ok? ==> mirrors == old(mirrors)[agentId := r.value] && expected == old(expected)[agentId := kv]
    {
      if masterId == None {
        return Err(RuntimeError);
      }
      var master := Master();
      if kv.shape != master.shape {
        return Err(ValueError);
      }
      if kv.shape[0] == 0 {
        return Err(ValueError);
      }
      ShapesAgree(kv, master);
      var diff := DiffAgainst(kv.blocks, master.blocks, master.shape[1..], diffThreshold);
      DiffOfIsFaithful(kv, master, diffThreshold);
      mirrors := mirrors[agentId := diff];
      expected := expected[agentId := kv];
      r := Ok(diff);
    }

    /** The master, or the master with the agent's difference added in. In a faithful state this
        is what the agent registered and adopted, stored blocks exactly and all others within
        the threshold. */
    method Reconstruct(agentId: string) returns (r: Result<NdArray>)
      requires Valid()
      ensures r == Returned(agentId)
      ensures Faithful() && agentId in mirrors && masterId != Some(agentId) ==>
                && r.Ok? && r.value.shape == expected[agentId].shape
                && |r.value.blocks| == |expected[agentId].blocks|
                && forall i :: 0 <= i < |r.value.blocks| ==>
                     if i in mirrors[agentId].indices then r.value.blocks[i] == expected[agentId].blocks[i]
                     else Near(expected[agentId].blocks[i], r.value.blocks[i], diffThreshold)
      ensures Faithful() && agentId in mirrors && masterId != Some(agentId) && diffThreshold >= 0.0 ==>
                && r.Ok? && |r.value.blocks| == |expected[agentId].blocks|
                && AllWithin(expected[agentId].blocks, r.value.blocks, mirrors[agentId].indices, diffThreshold)
    {
      if masterId == None {
        return Err(RuntimeError);
      }
      if masterId == Some(agentId) {
        return Ok(Master());
      }
      if agentId !in mirrors {
        return Err(KeyError);
      }
      r := ApplyDiff(Master(), mirrors[agentId]);
      if Faithful() {
        AddedAsIs(Master(), mirrors[agentId]);
        if diffThreshold >= 0.0 {
          FaithfulIsWithin(Master(), mirrors[agentId], expected[agentId], diffThreshold);
        }
      }
    }

    /** What a shared step makes of the storage: the shared blocks are appended to the master
        once, named agents without a mirror get an empty difference, and the differences of
        all others are kept as they are. */
    twostate predicate Shared(agentIds: seq<string>, shared: NdArray)
      requires old(Valid()) && old(masterId).Some? && Valid() && masterId.Some?
      reads this
    {
      && masterId == old(masterId)
      && Master() == Concatenate(old(Master()), shared)
      && mirrors.Keys == old(mirrors).Keys + (set a | a in agentIds && a != masterId.value)
      && MirrorsExtended(old(mirrors), mirrors)
      && TotalsCurrent(old(mirrors), mirrors, masterId.value, agentIds, Master().shape[0], diffThreshold)
      && expected == ExpectedAfter(mirrors, old(expected), old(Master()), shared)
    }

    method CollectiveReuseStep(agentIds: seq<string>, shared: NdArray) returns (r: Result<map<string, nat>>)
      requires Valid() && shared.Valid()
      modifies this
      ensures Valid() && masterId == old(masterId)
      ensures masterId.None? <==> r == Err(RuntimeError)
      ensures masterId.Some? ==> (r.Ok? <==> |shared.shape| >= 2 && shared.shape[1..] == old(Master()).shape[1..])
      ensures r.Err? ==> masterCache == old(masterCache) && mirrors == old(mirrors) && expected == old(expected)
      ensures r.Ok? ==> Shared(agentIds, shared) && IsCount(r.value, agentIds)
      ensures old(Faithful()) ==> Faithful()
    {
      if masterId == None {
        return Err(RuntimeError);
      }
      if |shared.shape| < 2 {
        return Err(ValueError);
      }
      if shared.shape[1..] != Master().shape[1..] {
        return Err(ValueError);
      }
      var counts := AppendShared(agentIds, shared);
      r := Ok(counts);
    }

    /** Per named agent the number of stored blocks, 0 for the master. */
    ghost predicate IsCount(counts: map<string, nat>, agentIds: seq<string>)
      reads this
    {
      masterId.Some? ==>
        && masterId.value in counts && counts[masterId.value] == 0
        && forall a :: a in agentIds && a != masterId.value ==>
             a in counts && a in mirrors && counts[a] == |mirrors[a].indices|
    }

    method AppendShared(agentIds: seq<string>, shared: NdArray) returns (counts: map<string, nat>)
      requires Valid() && shared.Valid() && masterId.Some?
      requires |shared.shape| >= 2 && shared.shape[1..] == Master().shape[1..]
      modifies this
      ensures Valid() && masterId == old(masterId)
      ensures Shared(agentIds, shared) && IsCount(counts, agentIds)
      ensures old(Faithful()) ==> Faithful()
    {
      var me, master := masterId.value, Master();
      var extended := Concatenate(master, shared);
      ghost var mirrors0, expected0 := mirrors, expected;
      masterCache := masterCache[me := extended];
      mirrors, counts := ExtendMirrors(mirrors, me, agentIds, extended, diffThreshold);
      ExtendedAreValid(mirrors0, mirrors);
      expected := ExpectedAfter(mirrors, expected0, master, shared);
      if old(Faithful()) {
        AllStayFaithful(master, shared, me, mirrors0, mirrors, expected0, diffThreshold);
      }
    }

    /** Full block counts of all agents over the blocks actually stored. */
    method CompressionRatio() returns (ratio: real)
      requires Valid()
      ensures masterId.None? ==> ratio == 1.0
      ensures masterId.Some? ==>
                ratio == RatioOf(1 + |mirrors|, Master().shape[0], Master().shape[0] + AllDiffBlocks(mirrors))
      ensures Faithful() && masterId.Some? && Master().shape[0] > 0 ==> 1.0 <= ratio <= (1 + |mirrors|) as real
    {
      MasterIsCached(this);
      if masterId == None || |masterCache| == 0 {
        return 1.0;
      }
      ratio := RatioOver(mirrors, Master().shape[0]);
      InRangeWhenFaithful(this, ratio);
    }
  }

  /** The blocks stored for all mirrors together. */
  ghost function AllDiffBlocks(mirrors: map<string, SparseKVDiff>): int {
    SumBy(mirrors, DiffBlocks)
  }

  lemma MasterIsCached(s: TokenDanceStorage)
    requires s.Valid()
    ensures s.masterId.Some? ==> |s.masterCache| > 0
  {
    if s.masterId.Some? {
      assert s.masterId.value in s.masterCache;
    }
  }

  method RatioOver(mirrors: map<string, SparseKVDiff>, full: nat) returns (ratio: real)
    ensures ratio == RatioOf(1 + |mirrors|, full, full + AllDiffBlocks(mirrors))
    ensures full > 0 && AllInRange(mirrors, full) ==> 1.0 <= ratio <= (1 + |mirrors|) as real
  {
    var total := TotalDiffBlocks(mirrors);
    ratio := RatioOf(1 + |mirrors|, full, full + total);
    if full > 0 && AllInRange(mirrors, full) {
      RatioInRange(mirrors, full);
    }
  }

  /** What is reconstructed under the master's own name stands for the wanted array, registered
      there as a mirror, exactly when none of its blocks would have been stored. */
  lemma OwnNameMirror(s: TokenDanceStorage, want: NdArray)
    requires s.Valid() && s.masterId.Some? && want.Valid() && want.shape == s.Master().shape
    ensures SameShape(want.blocks, s.Master().blocks)
    ensures s.Represents(s.masterId.value, want) <==>
            NoneExceeds(want.blocks, s.Master().blocks, s.diffThreshold) || want == s.Master()
  {
    ShapesAgree(want, s.Master());
    StandsForIff(want.blocks, s.Master().blocks, s.diffThreshold);
  }

  lemma MirrorRepresents(s: TokenDanceStorage, agentId: string, kv: NdArray)
    requires s.Valid() && s.masterId.Some? && s.masterId != Some(agentId) && agentId in s.mirrors
    requires kv.Valid() && kv.shape == s.Master().shape
    requires s.mirrors[agentId] == DiffOf(kv, s.Master(), s.diffThreshold)
    ensures s.Represents(agentId, kv)
  {
    var master := s.Master();
    DiffOfIsFaithful(kv, master, s.diffThreshold);
    AddedAsIs(master, s.mirrors[agentId]);
    ShapesAgree(kv, master);
    FreshIsNear(kv.blocks, master.blocks, master.shape[1..], s.diffThreshold);
  }

  /** All stored indices increase strictly and are below the number of master blocks. */
  ghost predicate AllInRange(mirrors: map<string, SparseKVDiff>, full: nat) {
    forall a :: a in mirrors ==> Increasing(mirrors[a].indices, full)
  }

  /** In a faithful state every stored difference fits the master: its indices increase
      strictly and are in range. */
  lemma FaithfulFits(s: TokenDanceStorage)
    requires s.Valid() && s.masterId.Some?
    ensures s.Faithful() ==> AllInRange(s.mirrors, s.Master().shape[0])
  {
  }

  lemma InRangeWhenFaithful(s: TokenDanceStorage, ratio: real)
    requires s.Valid() && s.masterId.Some?
    requires s.Master().shape[0] > 0 && AllInRange(s.mirrors, s.Master().shape[0]) ==>
               1.0 <= ratio <= (1 + |s.mirrors|) as real
    ensures s.Faithful() && s.Master().shape[0] > 0 ==> 1.0 <= ratio <= (1 + |s.mirrors|) as real
  {
    FaithfulFits(s);
  }

  /** With differences that fit a nonempty master of `full` blocks, the compression ratio lies
      between 1 and the number of agents. */
  lemma RatioInRange(mirrors: map<string, SparseKVDiff>, full: nat)
    requires full > 0 && AllInRange(mirrors, full)
    ensures 1.0 <= RatioOf(1 + |mirrors|, full, full + AllDiffBlocks(mirrors)) <= (1 + |mirrors|) as real
  {
    StoredBounds(mirrors, full);
    RatioBounds(full, |mirrors|, full + AllDiffBlocks(mirrors));
  }

  /** All blocks of all agents over the blocks stored. */
  function RatioOf(agents: nat, full: nat, stored: int): real {
    if stored == 0 then agents as real else Over(agents * full, stored)
  }

  /** The blocks of all agents are this many times the blocks stored; without any stored block
      the ratio is the number of agents. */
  lemma RatioIs(agents: nat, full: nat, stored: int)
    ensures stored != 0 ==> RatioOf(agents, full, stored) * stored as real == (agents * full) as real
    ensures stored == 0 ==> RatioOf(agents, full, stored) == agents as real
  {
  }

  function Over(a: int, b: int): real
    requires b != 0
  {
    a as real / b as real
  }

  /** The mirrors after a shared step: new ones empty, the others with a new total only. */
  ghost predicate MirrorsExtended(mirrors0: map<string, SparseKVDiff>, mirrors: map<string, SparseKVDiff>) {
    forall a :: a in mirrors ==> DiffExtended(mirrors0, a, mirrors[a])
  }

  lemma OneMoreExtended(mirrors0: map<string, SparseKVDiff>, mirrors: map<string, SparseKVDiff>, me: string,
                        agentIds: seq<string>, k: nat, diff: SparseKVDiff, total: nat, threshold: real)
    requires k < |agentIds| && agentIds[k] != me && MirrorsExtended(mirrors0, mirrors)
    requires mirrors0.Keys <= mirrors.Keys
    requires TotalsCurrent(mirrors0, mirrors, me, agentIds[..k], total, threshold)
    requires var aid := agentIds[k];
             if aid in mirrors then diff == mirrors[aid].(totalBlocks := total)
             else diff.indices == [] && diff.values == [] && diff.totalBlocks == total && diff.threshold == threshold
    ensures MirrorsExtended(mirrors0, mirrors[agentIds[k] := diff])
    ensures TotalsCurrent(mirrors0, mirrors[agentIds[k] := diff], me, agentIds[..k + 1], total, threshold)
  {
    var aid, now := agentIds[k], mirrors[agentIds[k] := diff];
    forall a | a in now
      ensures DiffExtended(mirrors0, a, now[a])
      ensures TotalCurrent(mirrors0, a, now[a], a in agentIds[..k + 1] && a != me, total, threshold)
    {
      if a in mirrors {
        assert DiffExtended(mirrors0, a, mirrors[a]);
        assert TotalCurrent(mirrors0, a, mirrors[a], a in agentIds[..k] && a != me, total, threshold);
      }
    }
  }

  lemma MasterIsSkipped(mirrors0: map<string, SparseKVDiff>, mirrors: map<string, SparseKVDiff>, me: string,
                        agentIds: seq<string>, k: nat, total: nat, threshold: real)
    requires k < |agentIds| && agentIds[k] == me
    requires TotalsCurrent(mirrors0, mirrors, me, agentIds[..k], total, threshold)
    ensures TotalsCurrent(mirrors0, mirrors, me, agentIds[..k + 1], total, threshold)
  {
    forall a | a in mirrors
      ensures TotalCurrent(mirrors0, a, mirrors[a], a in agentIds[..k + 1] && a != me, total, threshold)
    {
      assert TotalCurrent(mirrors0, a, mirrors[a], a in agentIds[..k] && a != me, total, threshold);
    }
  }

  /** The named agents know the new number of blocks, new ones the threshold; all others are
      untouched. */
  ghost predicate TotalsCurrent(mirrors0: map<string, SparseKVDiff>, mirrors: map<string, SparseKVDiff>, me: string,
                                agentIds: seq<string>, total: nat, threshold: real)
  {
    forall a :: a in mirrors ==> TotalCurrent(mirrors0, a, mirrors[a], a in agentIds && a != me, total, threshold)
  }

  ghost predicate TotalCurrent(mirrors0: map<string, SparseKVDiff>, a: string, d: SparseKVDiff, named: bool,
                               total: nat, threshold: real)
  {
    if named then d.totalBlocks == total && (a !in mirrors0 ==> d.threshold == threshold)
    else a in mirrors0 && d == mirrors0[a]
  }

  ghost predicate DiffExtended(mirrors0: map<string, SparseKVDiff>, a: string, d: SparseKVDiff) {
    if a in mirrors0 then d == mirrors0[a].(totalBlocks := d.totalBlocks) else d.indices == [] && d.values == []
  }

  method ExtendMirrors(mirrors0: map<string, SparseKVDiff>, me: string, agentIds: seq<string>, master: NdArray,
                       threshold: real)
    returns (mirrors: map<string, SparseKVDiff>, counts: map<string, nat>)
    requires |master.shape| > 0
    ensures mirrors.Keys == mirrors0.Keys + (set a | a in agentIds && a != me)
    ensures MirrorsExtended(mirrors0, mirrors)
    ensures TotalsCurrent(mirrors0, mirrors, me, agentIds, master.shape[0], threshold)
    ensures me in counts && counts[me] == 0
    ensures forall a :: a in agentIds && a != me ==> a in counts && counts[a] == |mirrors[a].indices|
  {
    mirrors, counts := mirrors0, map[me := 0];
    for k := 0 to |agentIds|
      invariant mirrors.Keys == mirrors0.Keys + (set a | a in agentIds[..k] && a != me)
      invariant MirrorsExtended(mirrors0, mirrors)
      invariant TotalsCurrent(mirrors0, mirrors, me, agentIds[..k], master.shape[0], threshold)
      invariant me in counts && counts[me] == 0
      invariant forall a :: a in agentIds[..k] && a != me ==> a in counts && counts[a] == |mirrors[a].indices|
    {
      var aid := agentIds[k];
      if aid != me {
        var diff := if aid !in mirrors then SparseKVDiff([], master.shape[1..], [], master.shape[0], threshold)
                    else mirrors[aid].(totalBlocks := master.shape[0]);
        OneMoreExtended(mirrors0, mirrors, me, agentIds, k, diff, master.shape[0], threshold);
        mirrors := mirrors[aid := diff];
        counts := counts[aid := |diff.indices|];
      } else {
        MasterIsSkipped(mirrors0, mirrors, me, agentIds, k, master.shape[0], threshold);
      }
    }
    assert agentIds[..|agentIds|] == agentIds;
  }

  /** What mirrors are expected to hold after shared blocks: what they held and the shared
      blocks, or the extended master for one that is new. */
  ghost function ExpectedAfter(mirrors: map<string, SparseKVDiff>, expected0: map<string, NdArray>,
                               master: NdArray, more: NdArray): map<string, NdArray>
  {
    map a | a in mirrors :: Concatenate(if a in expected0 then expected0[a] else master, more)
  }

  lemma ExtendedAreValid(mirrors0: map<string, SparseKVDiff>, mirrors: map<string, SparseKVDiff>)
    requires MirrorsExtended(mirrors0, mirrors) && forall a :: a in mirrors0 ==> mirrors0[a].Valid()
    ensures forall a :: a in mirrors ==> mirrors[a].Valid()
  {
    forall a | a in mirrors ensures mirrors[a].Valid() {
      assert DiffExtended(mirrors0, a, mirrors[a]);
    }
  }

  lemma ExtendedAreInRange(mirrors0: map<string, SparseKVDiff>, mirrors: map<string, SparseKVDiff>, full: nat,
                           more: nat)
    requires MirrorsExtended(mirrors0, mirrors) && AllInRange(mirrors0, full)
    ensures AllInRange(mirrors, full + more)
  {
    forall a | a in mirrors ensures Increasing(mirrors[a].indices, full + more) {
      assert DiffExtended(mirrors0, a, mirrors[a]);
    }
  }

  lemma AllStayFaithful(master: NdArray, more: NdArray, me: string, mirrors0: map<string, SparseKVDiff>,
                        mirrors: map<string, SparseKVDiff>, expected0: map<string, NdArray>, threshold: real)
    requires master.Valid() && more.Valid() && |master.shape| > 0 && |more.shape| > 0
    requires master.shape[1..] == more.shape[1..] && (forall a :: a in mirrors ==> mirrors[a].Valid())
    requires MirrorsExtended(mirrors0, mirrors) && AllFaithful(master, me, mirrors0, expected0, threshold)
    ensures AllFaithful(Concatenate(master, more), me, mirrors, ExpectedAfter(mirrors, expected0, master, more),
                        threshold)
  {
    ExtendedAreInRange(mirrors0, mirrors, |master.blocks|, |more.blocks|);
    forall a | a in mirrors && a != me
      ensures FaithfulArray(Concatenate(master, more), mirrors[a], ExpectedAfter(mirrors, expected0, master, more)[a],
                            threshold)
    {
      OneStaysFaithful(master, more, me, mirrors0, mirrors, expected0, threshold, a);
    }
  }

  lemma OneStaysFaithful(master: NdArray, more: NdArray, me: string, mirrors0: map<string, SparseKVDiff>,
                         mirrors: map<string, SparseKVDiff>, expected0: map<string, NdArray>, threshold: real,
                         a: string)
    requires master.Valid() && more.Valid() && |master.shape| > 0 && |more.shape| > 0
    requires master.shape[1..] == more.shape[1..] && a in mirrors && a != me && mirrors[a].Valid()
    requires DiffExtended(mirrors0, a, mirrors[a]) && mirrors0.Keys == expected0.Keys
    requires a in mirrors0 ==> FaithfulArray(master, mirrors0[a], expected0[a], threshold)
    ensures FaithfulArray(Concatenate(master, more), mirrors[a],
                          Concatenate(if a in expected0 then expected0[a] else master, more), threshold)
  {
    if a in mirrors0 {
      ExtendedArrayStaysFaithful(master, more, mirrors0[a], mirrors[a], expected0[a], threshold);
    } else {
      EmptyIsFaithful(Concatenate(master, more), mirrors[a], threshold);
    }
  }

  lemma EmptyIsFaithful(master: NdArray, d: SparseKVDiff, threshold: real)
    requires |master.shape| > 0 && d.Valid() && d.indices == [] && d.values == []
    ensures FaithfulArray(master, d, master, threshold)
  {
  }

  lemma ExtendedArrayStaysFaithful(master: NdArray, more: NdArray, d: SparseKVDiff, e: SparseKVDiff, want: NdArray,
                                   threshold: real)
    requires master.Valid() && more.Valid() && |master.shape| > 0 && |more.shape| > 0
    requires master.shape[1..] == more.shape[1..] && e == d.(totalBlocks := e.totalBlocks)
    requires FaithfulArray(master, d, want, threshold)
    ensures FaithfulArray(Concatenate(master, more), e, Concatenate(want, more), threshold)
  {
    ExtendedStaysFaithful(master.blocks, more.blocks, d, e, want.blocks, threshold);
  }

  method TotalDiffBlocks(mirrors: map<string, SparseKVDiff>) returns (total: int)
    ensures total == SumBy(mirrors, DiffBlocks)
  {
    total := 0;
    var rest := mirrors;
    while rest != map[]
      invariant total + SumBy(rest, DiffBlocks) == SumBy(mirrors, DiffBlocks)
      decreases |rest.Keys|
    {
      var a :| a in rest;
      SumRemove(rest, DiffBlocks, a);
      total := total + DiffBlocks(rest[a]);
      assert (rest - {a}).Keys == rest.Keys - {a};
      rest := rest - {a};
    }
  }

  lemma StoredBounds(mirrors: map<string, SparseKVDiff>, full: nat)
    requires AllInRange(mirrors, full)
    ensures 0 <= AllDiffBlocks(mirrors) <= |mirrors| * full
  {
    forall a | a in mirrors ensures 0 <= DiffBlocks(mirrors[a]) <= full {
      IncreasingIsShort(mirrors[a].indices, full);
    }
    SumBounds(mirrors, DiffBlocks, full);
    CopiesIsProduct(|mirrors|, full);
  }

  /** Adds the stored differences into a copy of the master. */
  method ApplyDiff(master: NdArray, diff: SparseKVDiff) returns (r: Result<NdArray>)
    requires master.Valid() && |master.shape| > 0 && diff.Valid()
    ensures r == AddInto(master, diff)
  {
    var n, inner := |diff.indices|, master.shape[1..];
    if n == 0 {
      return Ok(master);
    }
    if exists k :: 0 <= k < n && diff.indices[k] >= |master.blocks| {
      return Err(IndexError);
    }
    if !Broadcasts([n] + diff.blockShape, [n] + inner) {
      return Err(ValueError);
    }
    var values := SpreadAll(diff.values, diff.blockShape, inner);
    assert forall k :: 0 <= k < n ==> master.blocks[diff.indices[k]] in master.blocks;
    var out := AddBlocks(master.blocks, diff.indices, values);
    r := Ok(NdArray(master.shape, out));
  }

  method AddBlocks(master: seq<Block>, indices: seq<nat>, values: seq<Block>) returns (out: seq<Block>)
    requires |indices| == |values|
    requires forall k :: 0 <= k < |indices| ==> indices[k] < |master| && |values[k]| == |master[indices[k]]|
    ensures out == Patch(master, indices, values)
  {
    out := master;
    for k := 0 to |indices|
      invariant out == Patch(master, indices[..k], values[..k])
    {
      assert indices[..k + 1][..k] == indices[..k] && values[..k + 1][..k] == values[..k];
      out := out[indices[k] := Add(master[indices[k]], values[k])];
    }
    assert indices[..|indices|] == indices && values[..|values|] == values;
  }

  function DiffBlocks(d: SparseKVDiff): (n: int)
    ensures n == |d.indices|
  {
    |d.indices|
  }

  lemma {:induction false} IncreasingIsShort(s: seq<nat>, bound: nat)
    requires Increasing(s, bound)
    ensures |s| <= bound
  {
    if s != [] {
      var n := |s| - 1;
      IncreasingIsShort(s[..n], s[n]);
    }
  }

  lemma RatioBounds(full: nat, mirrors: nat, stored: int)
    requires 0 < full <= stored <= full + mirrors * full
    ensures 1.0 <= RatioOf(1 + mirrors, full, stored) <= (1 + mirrors) as real
  {
    var n, f, t := (1 + mirrors) as real, full as real, stored as real;
    var a := ((1 + mirrors) * full) as real;
    assert (1 + mirrors) * full == full + mirrors * full;
    assert a == n * f;
    RatioBetween(a, t, n);
  }

  lemma RatioBetween(a: real, t: real, n: real)
    requires 0.0 < t <= a <= n * t
    ensures 1.0 <= a / t <= n
  {
    assert a / t * t == a;
  }

  lemma ShapesAgree(a: NdArray, b: NdArray)
    requires a.Valid() && b.Valid() && a.shape == b.shape && |a.shape| > 0
    ensures SameShape(a.blocks, b.blocks)
  {
    forall i | 0 <= i < |a.blocks| ensures |a.blocks[i]| == |b.blocks[i]| {
      assert a.blocks[i] in a.blocks && b.blocks[i] in b.blocks;
    }
  }
}
