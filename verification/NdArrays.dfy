/** Shapes of numpy arrays and the rule by which one array is added into another. */
module NdArrays {
  import opened Arithmetic

  type Block = seq<real>

  /** shape[0] blocks, each holding the numbers of shape[1..], flattened. */
  datatype NdArray = NdArray(shape: seq<nat>, blocks: seq<Block>) {
    ghost predicate Valid() {
      |shape| > 0 ==> |blocks| == shape[0] && forall b :: b in blocks ==> |b| == Volume(shape[1..])
    }
  }

  /** How many numbers an array of this shape holds. */
  function Volume(shape: seq<nat>): nat {
    if shape == [] then 1 else Volume(shape[..|shape| - 1]) * shape[|shape| - 1]
  }

  /** Whether values of shape `src` can be added into an array of shape `dst`: aligned at the
      last axis, every axis of src has the length of its counterpart or 1, or just 1 where dst
      has no axis left. */
  predicate Broadcasts(src: seq<nat>, dst: seq<nat>) {
    if src == [] then true
    else if dst == [] then src[|src| - 1] == 1 && Broadcasts(src[..|src| - 1], [])
    else
      && (src[|src| - 1] == dst[|dst| - 1] || src[|src| - 1] == 1)
      && Broadcasts(src[..|src| - 1], dst[..|dst| - 1])
  }

  /** The flat position in src that broadcasting pairs with flat position p of dst. */
  function SourceOf(src: seq<nat>, dst: seq<nat>, p: nat): (q: nat)
    requires Broadcasts(src, dst) && p < Volume(dst)
    ensures q < Volume(src)
    decreases |src|
  {
    if src == [] then 0
    else if dst == [] then OnesHoldOne(src); 0
    else
      var a, b := dst[|dst| - 1], src[|src| - 1];
      var rest, inner := src[..|src| - 1], dst[..|dst| - 1];
      DigitInRange(p, Volume(inner), a);
      var q := SourceOf(rest, inner, p / a);
      DigitsInRange(q, Volume(rest), if b == 1 then 0 else p % a, b);
      q * b + if b == 1 then 0 else p % a
  }

  /** The axis of a shape that is j axes before the last, 1 where there is none. */
  function AxisFromEnd(shape: seq<nat>, j: nat): nat {
    if j < |shape| then shape[|shape| - 1 - j] else 1
  }

  /** The index on that axis of flat position p. */
  function IndexFromEnd(shape: seq<nat>, p: nat, j: nat): nat
    requires p < Volume(shape)
  {
    if shape == [] then 0 else
      var n := |shape| - 1;
      DigitInRange(p, Volume(shape[..n]), shape[n]);
      if j == 0 then p % shape[n] else IndexFromEnd(shape[..n], p / shape[n], j - 1)
  }

  /** Broadcasting is possible exactly when, counted from the end, every axis of src has the
      length of the axis of dst or 1. */
  lemma {:induction false} BroadcastsIff(src: seq<nat>, dst: seq<nat>)
    ensures Broadcasts(src, dst) <==>
            forall j: nat :: j < |src| ==>
              AxisFromEnd(src, j) == 1 || (j < |dst| && AxisFromEnd(src, j) == AxisFromEnd(dst, j))
    decreases |src|
  {
    if src != [] {
      var rest, inner := src[..|src| - 1], if dst == [] then [] else dst[..|dst| - 1];
      BroadcastsIff(rest, inner);
      forall j: nat | j < |rest|
        ensures AxisFromEnd(rest, j) == AxisFromEnd(src, j + 1) && AxisFromEnd(inner, j) == AxisFromEnd(dst, j + 1)
      {
      }
      assert AxisFromEnd(src, 0) == src[|src| - 1] && (dst != [] ==> AxisFromEnd(dst, 0) == dst[|dst| - 1]);
      if forall j: nat :: j < |src| ==>
           AxisFromEnd(src, j) == 1 || (j < |dst| && AxisFromEnd(src, j) == AxisFromEnd(dst, j))
      {
        forall j: nat | j < |rest|
          ensures AxisFromEnd(rest, j) == 1 || (j < |inner| && AxisFromEnd(rest, j) == AxisFromEnd(inner, j))
        {
          assert AxisFromEnd(src, j + 1) == 1 || (j + 1 < |dst| && AxisFromEnd(src, j + 1) == AxisFromEnd(dst, j + 1));
        }
      }
      if Broadcasts(src, dst) {
        forall j: nat | j < |src|
          ensures AxisFromEnd(src, j) == 1 || (j < |dst| && AxisFromEnd(src, j) == AxisFromEnd(dst, j))
        {
          if j > 0 {
            assert AxisFromEnd(rest, j - 1) == AxisFromEnd(src, j);
          }
        }
      }
    }
  }

  /** The position read has index 0 on every axis of length 1, and on every other axis the
      index of the position it is paired with. */
  lemma {:induction false} SourceIndex(src: seq<nat>, dst: seq<nat>, p: nat, j: nat)
    requires Broadcasts(src, dst) && p < Volume(dst) && j < |src|
    ensures IndexFromEnd(src, SourceOf(src, dst, p), j) ==
            if AxisFromEnd(src, j) == 1 then 0 else IndexFromEnd(dst, p, j)
    decreases |src|
  {
    var n := |src| - 1;
    if dst == [] {
      OnesHoldOne(src);
      OnesAreOnes(src, j);
      IndexBelow(src, 0, j);
    } else {
      var a, b := dst[|dst| - 1], src[n];
      DigitInRange(p, Volume(dst[..|dst| - 1]), a);
      var q := SourceOf(src[..n], dst[..|dst| - 1], p / a);
      var r := if b == 1 then 0 else p % a;
      assert SourceOf(src, dst, p) == q * b + r;
      DivisionIs(q * b + r, b, q, r);
      if j > 0 {
        SourceIndex(src[..n], dst[..|dst| - 1], p / a, j - 1);
        assert AxisFromEnd(src[..n], j - 1) == AxisFromEnd(src, j);
      }
    }
  }

  lemma {:induction false} OnesAreOnes(shape: seq<nat>, j: nat)
    requires Broadcasts(shape, []) && j < |shape|
    ensures AxisFromEnd(shape, j) == 1
  {
    if j > 0 {
      OnesAreOnes(shape[..|shape| - 1], j - 1);
    }
  }

  lemma {:induction false} IndexBelow(shape: seq<nat>, p: nat, j: nat)
    requires p < Volume(shape) && j < |shape|
    ensures IndexFromEnd(shape, p, j) < AxisFromEnd(shape, j)
  {
    var n := |shape| - 1;
    DigitInRange(p, Volume(shape[..n]), shape[n]);
    if j > 0 {
      IndexBelow(shape[..n], p / shape[n], j - 1);
    }
  }

  lemma {:induction false} OnesHoldOne(shape: seq<nat>)
    requires Broadcasts(shape, [])
    ensures Volume(shape) == 1
  {
    if shape != [] {
      OnesHoldOne(shape[..|shape| - 1]);
    }
  }

  lemma DigitInRange(p: nat, n: nat, a: nat)
    requires p < n * a
    ensures a > 0 && p / a < n && p % a < a
  {
    assert n * 0 == 0;
    var q := p / a;
    assert p == a * q + p % a;
    MulMonotone(a, n, q);
  }

  lemma DigitsInRange(q: nat, n: nat, r: nat, b: nat)
    requires q < n && r < b
    ensures q * b + r < n * b
  {
    MulMonotone(b, q + 1, n);
    assert b * (q + 1) == q * b + b;
  }

  lemma MulMonotone(m: nat, a: nat, b: nat)
    ensures a <= b ==> m * a <= m * b
  {
    if a <= b {
      assert m * b == m * a + m * (b - a);
    }
  }

  lemma {:induction false} BroadcastsItself(shape: seq<nat>)
    ensures Broadcasts(shape, shape)
  {
    if shape != [] {
      BroadcastsItself(shape[..|shape| - 1]);
    }
  }

  /** Arrays of one shape are added place by place. */
  lemma {:induction false} SourceOfItself(shape: seq<nat>, p: nat)
    requires p < Volume(shape)
    ensures Broadcasts(shape, shape) && SourceOf(shape, shape, p) == p
  {
    BroadcastsItself(shape);
    if shape != [] {
      var a, inner := shape[|shape| - 1], shape[..|shape| - 1];
      DigitInRange(p, Volume(inner), a);
      SourceOfItself(inner, p / a);
      assert p == a * (p / a) + p % a;
    }
  }

  lemma {:induction false} VolumeCons(k: nat, shape: seq<nat>)
    ensures Volume([k] + shape) == k * Volume(shape)
  {
    var s := [k] + shape;
    if shape == [] {
      assert s[..|s| - 1] == [];
    } else {
      var n := |shape| - 1;
      assert s[..|s| - 1] == [k] + shape[..n];
      VolumeCons(k, shape[..n]);
      var v, a := Volume(shape[..n]), shape[n];
      assert k * v * a == k * (v * a);
    }
  }

  /** np.concatenate along the first axis. */
  function Concatenate(a: NdArray, b: NdArray): (c: NdArray)
    ensures c.blocks == a.blocks + b.blocks
    ensures a.Valid() && b.Valid() && |a.shape| > 0 && |b.shape| > 0 && a.shape[1..] == b.shape[1..] ==>
              c.Valid() && |c.shape| == |a.shape| && c.shape[1..] == a.shape[1..]
  {
    var shape: seq<nat> := if a.shape == [] || b.shape == [] then a.shape else [a.shape[0] + b.shape[0]] + a.shape[1..];
    assert a.shape != [] && b.shape != [] ==> shape[1..] == a.shape[1..];
    NdArray(shape, a.blocks + b.blocks)
  }

  // ----- blocks added under broadcasting

  /** The flat position read for number e of block j. */
  function Position(k: nat, src: seq<nat>, dst: seq<nat>, j: nat, e: nat): (q: nat)
    requires Broadcasts([k] + src, [k] + dst) && j < k && e < Volume(dst)
    ensures q < k * Volume(src)
  {
    VolumeCons(k, src);
    SourceOf([k] + src, [k] + dst, PlaceIn(k, dst, j, e))
  }

  /** The flat position of number e of block j. */
  function PlaceIn(k: nat, shape: seq<nat>, j: nat, e: nat): (p: nat)
    requires j < k && e < Volume(shape)
    ensures p < Volume([k] + shape)
  {
    VolumeCons(k, shape);
    DigitsInRange(j, k, e, Volume(shape));
    j * Volume(shape) + e
  }

  function ValueAt(values: seq<Block>, width: nat, q: nat): real
    requires (forall v :: v in values ==> |v| == width) && q < |values| * width
  {
    DigitInRange(q, |values|, width);
    assert values[q / width] in values;
    values[q / width][q % width]
  }

  /** Number e of block j where an array of equally many blocks of shape `src` is read in the
      place of blocks of shape `dst`. */
  function Spread(values: seq<Block>, src: seq<nat>, dst: seq<nat>, j: nat, e: nat): real
    requires forall v :: v in values ==> |v| == Volume(src)
    requires Broadcasts([|values|] + src, [|values|] + dst) && j < |values| && e < Volume(dst)
  {
    ValueAt(values, Volume(src), Position(|values|, src, dst, j, e))
  }

  /** Values of shape `src` broadcast to blocks of shape `dst`. */
  function SpreadAll(values: seq<Block>, src: seq<nat>, dst: seq<nat>): (out: seq<Block>)
    requires forall v :: v in values ==> |v| == Volume(src)
    requires Broadcasts([|values|] + src, [|values|] + dst)
    ensures |out| == |values| && forall j :: 0 <= j < |out| ==> |out[j]| == Volume(dst)
  {
    seq(|values|, j requires 0 <= j < |values| =>
      seq(Volume(dst), e requires 0 <= e < Volume(dst) => Spread(values, src, dst, j, e)))
  }

  /** Blocks of the shape they are added to are added as they are. */
  lemma SpreadItself(values: seq<Block>, shape: seq<nat>)
    requires forall v :: v in values ==> |v| == Volume(shape)
    ensures Broadcasts([|values|] + shape, [|values|] + shape)
    ensures SpreadAll(values, shape, shape) == values
  {
    BroadcastsItself([|values|] + shape);
    var out := SpreadAll(values, shape, shape);
    forall j | 0 <= j < |values| ensures out[j] == values[j] {
      assert values[j] in values;
      forall e | 0 <= e < Volume(shape) ensures out[j][e] == values[j][e] {
        SpreadAt(values, shape, j, e);
      }
    }
  }

  lemma SpreadAt(values: seq<Block>, shape: seq<nat>, j: nat, e: nat)
    requires forall v :: v in values ==> |v| == Volume(shape)
    requires j < |values| && e < Volume(shape) && Broadcasts([|values|] + shape, [|values|] + shape)
    ensures e < |values[j]| && Spread(values, shape, shape, j, e) == values[j][e]
  {
    assert values[j] in values;
    PositionInPlace(|values|, shape, j, e);
    DivisionIs(j * Volume(shape) + e, Volume(shape), j, e);
  }

  lemma PositionInPlace(k: nat, shape: seq<nat>, j: nat, e: nat)
    requires j < k && e < Volume(shape)
    ensures Broadcasts([k] + shape, [k] + shape) && Position(k, shape, shape, j, e) == PlaceIn(k, shape, j, e)
  {
    var all, p := [k] + shape, PlaceIn(k, shape, j, e);
    BroadcastsItself(all);
    SourceOfItself(all, p);
  }
}
