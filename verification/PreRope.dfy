/** Channel calibration, sink protection and the quantize / dequantize round trip of
    RotateKVQuantizer (apohara_context_forge/quantization/rotate_kv.py), use_fwht off. */
module PreRope {
  import opened Wrappers
  import opened Int4
  import opened Blocks
  import opened Sorting
  import opened Padding
  import opened RotateKV

  datatype QuantizedKVBlock = QuantizedKVBlock(
    keys: Packed, values: Packed, keysSink: array4<real>, valuesSink: array4<real>, channelOrder: seq<int>)

  function Abs(x: real): (r: real)
    ensures r >= 0.0 && (r == x || r == -x)
  {
    if x < 0.0 then -x else x
  }

  /** Sum of the magnitudes of channel c of head h over the first t rows of document b. */
  function RowSum(sample: array4<real>, b: nat, t: nat, h: nat, c: nat): real
    requires b < sample.Length0 && t <= sample.Length1 && h < sample.Length2 && c < sample.Length3
    reads sample
  {
    if t == 0 then 0.0 else RowSum(sample, b, t - 1, h, c) + Abs(sample[b, t - 1, h, c])
  }

  /** ... and over the first n documents. */
  function Magnitude(sample: array4<real>, n: nat, h: nat, c: nat): real
    requires n <= sample.Length0 && h < sample.Length2 && c < sample.Length3
    reads sample
  {
    if n == 0 then 0.0 else Magnitude(sample, n - 1, h, c) + RowSum(sample, n - 1, sample.Length1, h, c)
  }

  /** Magnitudes of the channels flattened over (head, channel). */
  function Magnitudes(sample: array4<real>, n: nat): (m: seq<real>)
    requires n <= sample.Length0
    reads sample
    ensures |m| == BlockStart(sample.Length2, sample.Length3)
  {
    var heads, dim := sample.Length2, sample.Length3;
    if dim == 0 then EmptyBlocks(heads); [] else
      seq(BlockStart(heads, dim), ch requires 0 <= ch < BlockStart(heads, dim) reads sample =>
        RowHasBlock(ch, dim, heads);
        Magnitude(sample, n, BlockOf(ch, dim), PlaceOf(ch, dim)))
  }

  /** The sum of magnitudes down one column of the sample reshaped to rows of documents. */
  ghost function ColumnSum(sample: array4<real>, rows: nat, h: nat, c: nat): real
    requires sample.Length1 > 0 && rows <= BlockStart(sample.Length0, sample.Length1)
    requires h < sample.Length2 && c < sample.Length3
    reads sample
  {
    if rows == 0 then 0.0 else
      var r := rows - 1;
      RowHasBlock(r, sample.Length1, sample.Length0);
      ColumnSum(sample, r, h, c) + Abs(sample[BlockOf(r, sample.Length1), PlaceOf(r, sample.Length1), h, c])
  }

  /** The magnitude of channel c of head h, at h * head_dim + c, is the sum down its column. */
  lemma MagnitudeAt(sample: array4<real>, n: nat, h: nat, c: nat)
    requires n <= sample.Length0 && sample.Length1 > 0 && h < sample.Length2 && c < sample.Length3
    ensures BlockStart(n, sample.Length1) <= BlockStart(sample.Length0, sample.Length1)
    ensures var m, ch := Magnitudes(sample, n), BlockStart(h, sample.Length3) + c;
            ch < |m| && m[ch] == ColumnSum(sample, BlockStart(n, sample.Length1), h, c)
  {
    BlockFits(h, sample.Length2, sample.Length3);
    BlockOfRow(h, c, sample.Length3);
    MoreBlocks(n, sample.Length0, sample.Length1);
    MagnitudeIsColumnSum(sample, n, h, c);
  }

  lemma {:induction false} MoreBlocks(m: nat, n: nat, g: nat)
    requires m <= n
    ensures BlockStart(m, g) <= BlockStart(n, g)
  {
    if m < n {
      MoreBlocks(m, n - 1, g);
    }
  }

  lemma {:induction false} MagnitudeIsColumnSum(sample: array4<real>, n: nat, h: nat, c: nat)
    requires n <= sample.Length0 && sample.Length1 > 0 && h < sample.Length2 && c < sample.Length3
    requires BlockStart(n, sample.Length1) <= BlockStart(sample.Length0, sample.Length1)
    ensures Magnitude(sample, n, h, c) == ColumnSum(sample, BlockStart(n, sample.Length1), h, c)
  {
    if n > 0 {
      MoreBlocks(n - 1, n, sample.Length1);
      MagnitudeIsColumnSum(sample, n - 1, h, c);
      RowSumIsColumnSum(sample, n - 1, sample.Length1, h, c);
    }
  }

  lemma {:induction false} RowSumIsColumnSum(sample: array4<real>, b: nat, t: nat, h: nat, c: nat)
    requires b < sample.Length0 && t <= sample.Length1 && sample.Length1 > 0 && h < sample.Length2 && c < sample.Length3
    requires BlockStart(b, sample.Length1) + t <= BlockStart(sample.Length0, sample.Length1)
    ensures ColumnSum(sample, BlockStart(b, sample.Length1) + t, h, c) ==
            ColumnSum(sample, BlockStart(b, sample.Length1), h, c) + RowSum(sample, b, t, h, c)
  {
    if t > 0 {
      RowSumIsColumnSum(sample, b, t - 1, h, c);
      BlockOfRow(b, t - 1, sample.Length1);
    }
  }

  lemma {:induction false} EmptyBlocks(n: nat)
    ensures BlockStart(n, 0) == 0
  {
    if n > 0 {
      EmptyBlocks(n - 1);
    }
  }

  function Identity(n: nat): (order: seq<int>)
    ensures |order| == n && forall i :: 0 <= i < n ==> order[i] == i
    ensures IsPermutation(order)
  {
    seq(n, i => i)
  }

  function InverseOf(order: seq<int>): seq<int> {
    Argsort(seq(|order|, i requires 0 <= i < |order| => order[i] as real))
  }

  /** dst holds rows from .. from + count of src, its channel c taken from channel order[c]. */
  ghost predicate IsGathered(dst: array4<real>, src: array4<real>, order: seq<int>, from: nat, count: nat)
    requires from + count <= src.Length1
    requires forall c :: 0 <= c < |order| ==> 0 <= order[c] < src.Length3
    reads dst, src
  {
    && dst.Length0 == src.Length0 && dst.Length1 == count
    && dst.Length2 == src.Length2 && dst.Length3 == |order|
    && forall b, t, h, c | 0 <= b < dst.Length0 && 0 <= t < count && 0 <= h < dst.Length2 && 0 <= c < |order| ::
         dst[b, t, h, c] == src[b, from + t, h, order[c]]
  }

  /** sink and q together hold src under a channel order: the first rows as they are, the
      body quantized (the last document of the batch). */
  ghost predicate HoldsStates(q: Packed, sink: array4<real>, body: array4<real>, src: array4<real>,
                              order: seq<int>, cfg: Config)
    requires cfg.groupSize > 0
    requires forall c :: 0 <= c < |order| ==> 0 <= order[c] < src.Length3
    reads q.codes, q.scales, q.zeros, sink, body, src
  {
    var sinks := Min(cfg.sinkTokens, src.Length1);
    && IsGathered(sink, src, order, 0, sinks)
    && IsGathered(body, src, order, sinks, src.Length1 - sinks)
    && Shaped(q, NumBlocks(body.Length1, cfg.groupSize), cfg.groupSize, body.Length2, body.Length3 / 2)
    && (src.Length0 > 0 ==> Quantizes(q, body, src.Length0 - 1, cfg.groupSize, cfg.bits))
  }

  method Gather(src: array4<real>, order: seq<int>, from: nat, count: nat) returns (dst: array4<real>)
    requires from + count <= src.Length1
    requires forall c :: 0 <= c < |order| ==> 0 <= order[c] < src.Length3
    ensures IsGathered(dst, src, order, from, count)
  {
    dst := new real[src.Length0, count, src.Length2, |order|];
    forall b, t, h, c | 0 <= b < dst.Length0 && 0 <= t < count && 0 <= h < dst.Length2 && 0 <= c < |order| {
      dst[b, t, h, c] := src[b, from + t, h, order[c]];
    }
  }

  method SplitAndPack(src: array4<real>, order: seq<int>, cfg: Config)
    returns (q: Packed, sink: array4<real>, body: array4<real>)
    requires cfg.groupSize > 0 && |order| % 2 == 0
    requires forall c :: 0 <= c < |order| ==> 0 <= order[c] < src.Length3
    ensures HoldsStates(q, sink, body, src, order, cfg)
  {
    var sinks := Min(cfg.sinkTokens, src.Length1);
    sink := Gather(src, order, 0, sinks);
    body := Gather(src, order, sinks, src.Length1 - sinks);
    q := QuantizeBlock(body, cfg.groupSize, cfg.bits);
  }

  /** What dequantization yields at row t: a sink row, or a restored row of the body. */
  function RestoredState(q: Packed, sink: array4<real>, g: nat, t: nat, h: nat, c: nat): real
    requires g > 0 && Shaped(q, q.codes.Length0, g, q.codes.Length2, q.codes.Length3)
    requires sink.Length0 == 1 && sink.Length2 == q.codes.Length2 && sink.Length3 == 2 * q.codes.Length3
    requires t < sink.Length1 + BlockStart(q.codes.Length0, g) && h < sink.Length2 && c < sink.Length3
    reads q.codes, q.scales, q.zeros, sink
  {
    if t < sink.Length1 then sink[0, t, h, c] else
      RowHasBlock(t - sink.Length1, g, q.codes.Length0);
      RestoredEntry(q, t - sink.Length1, g, h, c)
  }

  ghost predicate WellPacked(q: Packed, sink: array4<real>, g: nat) {
    && g > 0 && Shaped(q, q.codes.Length0, g, q.codes.Length2, q.codes.Length3)
    && sink.Length2 == q.codes.Length2 && sink.Length3 == 2 * q.codes.Length3
  }

  /** Concatenates sink and dequantized body along the rows. */
  method RestoreStates(q: Packed, sink: array4<real>, g: nat) returns (all: array4<real>)
    requires WellPacked(q, sink, g) && sink.Length0 == 1
    ensures all.Length0 == 1 && all.Length1 == sink.Length1 + BlockStart(q.codes.Length0, g)
    ensures all.Length2 == sink.Length2 && all.Length3 == sink.Length3
    ensures forall t, h, c | 0 <= t < all.Length1 && 0 <= h < all.Length2 && 0 <= c < all.Length3 ::
              all[0, t, h, c] == RestoredState(q, sink, g, t, h, c)
  {
    var body := DequantizeBlock(q, g);
    RestoredRows(body, q, g);
    all := new real[1, sink.Length1 + body.Length1, sink.Length2, sink.Length3];
    forall t, h, c | 0 <= t < all.Length1 && 0 <= h < all.Length2 && 0 <= c < all.Length3 {
      all[0, t, h, c] := if t < sink.Length1 then sink[0, t, h, c] else body[0, t - sink.Length1, h, c];
    }
  }

  /** A permutation longer than the head dimension names a channel beyond it. */
  lemma LongOrderOverflows(order: seq<int>, dim: nat)
    requires IsPermutation(order)
    ensures |order| > dim <==> exists c :: 0 <= c < |order| && order[c] >= dim
  {
    if |order| > dim {
      InverseIsPermutation(order);
      assert order[InverseOf(order)[dim]] == dim;
    }
  }

  lemma InverseIsPermutation(order: seq<int>)
    requires IsPermutation(order)
    ensures IsPermutation(InverseOf(order)) && |InverseOf(order)| == |order|
    ensures forall i :: 0 <= i < |order| ==> order[InverseOf(order)[i]] == i && InverseOf(order)[order[i]] == i
  {
    var values := seq(|order|, i requires 0 <= i < |order| => order[i] as real);
    ArgsortSorts(values);
    ArgsortInverts(order, InverseOf(order));
  }

  /** The channel of the stored grid that dequantization moves to channel c. */
  function SourceChannel(order: seq<int>, c: nat): (k: int)
    requires IsPermutation(order) && (order == [] || c < |order|)
    ensures order != [] ==> 0 <= k < |order|
    ensures order == [] ==> k == c
  {
    if order == [] then c else InverseIsPermutation(order); InverseOf(order)[c]
  }

  ghost predicate IsDequantized(all: array4<real>, q: Packed, sink: array4<real>, order: seq<int>, g: nat)
    requires WellPacked(q, sink, g) && sink.Length0 == 1
    requires IsPermutation(order) && (order == [] || |order| == sink.Length3)
    reads all, q.codes, q.scales, q.zeros, sink
  {
    && all.Length0 == 1 && all.Length1 == sink.Length1 + BlockStart(q.codes.Length0, g)
    && all.Length2 == sink.Length2 && all.Length3 == sink.Length3
    && forall t, h, c | 0 <= t < all.Length1 && 0 <= h < all.Length2 && 0 <= c < all.Length3 ::
         all[0, t, h, c] == RestoredState(q, sink, g, t, h, SourceChannel(order, c))
  }

  /** Whether an order kept with the block undoes the order the states were packed under:
      the calibrated one is kept itself, the absence of one as an empty list. */
  ghost predicate Undoes(kept: seq<int>, order: seq<int>) {
    IsPermutation(order) && (kept == order || (kept == [] && order == Identity(|order|)))
  }

  /** The round trip of a single document puts every entry back at its own row, head and
      channel: sink rows exactly, ... */
  lemma SinkComesBack(q: Packed, sink: array4<real>, body: array4<real>, src: array4<real>, order: seq<int>,
                      kept: seq<int>, cfg: Config, all: array4<real>, t: nat, h: nat, c: nat)
    requires cfg.groupSize > 0 && src.Length0 == 1 && |order| % 2 == 0 && |order| <= src.Length3
    requires Undoes(kept, order) && HoldsStates(q, sink, body, src, order, cfg)
    requires IsDequantized(all, q, sink, kept, cfg.groupSize)
    requires t < Min(cfg.sinkTokens, src.Length1) && h < src.Length2 && c < |order|
    ensures t < all.Length1 && all[0, t, h, c] == src[0, t, h, c]
  {
    var k := SourceChannel(kept, c);
    UndoneChannel(kept, order, c);
    assert sink[0, t, h, k] == src[0, 0 + t, h, order[k]];
  }

  /** ... and body row t at block t / group_size, within half the scale stored there when
      the width is 4. */
  lemma BodyComesBack(q: Packed, sink: array4<real>, body: array4<real>, src: array4<real>, order: seq<int>,
                      kept: seq<int>, cfg: Config, all: array4<real>, t: nat, h: nat, c: nat)
    requires cfg.groupSize > 0 && src.Length0 == 1 && |order| % 2 == 0 && |order| <= src.Length3
    requires Undoes(kept, order) && HoldsStates(q, sink, body, src, order, cfg)
    requires IsDequantized(all, q, sink, kept, cfg.groupSize)
    requires sink.Length1 <= t < src.Length1 && h < src.Length2 && c < |order|
    ensures var row, k, g := t - sink.Length1, SourceChannel(kept, c), cfg.groupSize;
            && t < all.Length1 && BlockOf(row, g) == row / g && row / g < q.scales.Length0
            && body[0, row, h, k] == src[0, t, h, c]
            && all[0, t, h, c] == RestoredEntry(q, row, g, h, k)
            && (cfg.bits == 4 ==> HalfScaleOff(StoredAt(q, row, g, h, k), src[0, t, h, c]))
  {
    var row, k := t - sink.Length1, SourceChannel(kept, c);
    BodyGathered(q, sink, body, src, order, kept, cfg, t, h, c);
    BodyEntry(q, body, cfg, row, h, k);
  }

  lemma DequantizedRow(all: array4<real>, q: Packed, sink: array4<real>, kept: seq<int>, g: nat, t: nat, h: nat, c: nat)
    requires WellPacked(q, sink, g) && sink.Length0 == 1
    requires IsPermutation(kept) && (kept == [] || |kept| == sink.Length3)
    requires IsDequantized(all, q, sink, kept, g)
    requires sink.Length1 <= t < all.Length1 && h < all.Length2 && c < all.Length3
    ensures BlockOf(t - sink.Length1, g) < q.codes.Length0
    ensures all[0, t, h, c] == RestoredEntry(q, t - sink.Length1, g, h, SourceChannel(kept, c))
  {
    RowHasBlock(t - sink.Length1, g, q.codes.Length0);
  }

  lemma BodyGathered(q: Packed, sink: array4<real>, body: array4<real>, src: array4<real>, order: seq<int>,
                     kept: seq<int>, cfg: Config, t: nat, h: nat, c: nat)
    requires cfg.groupSize > 0 && src.Length0 == 1 && |order| <= src.Length3
    requires Undoes(kept, order) && HoldsStates(q, sink, body, src, order, cfg)
    requires sink.Length1 <= t < src.Length1 && h < src.Length2 && c < |order|
    ensures 0 <= SourceChannel(kept, c) < body.Length3 && t - sink.Length1 < body.Length1 && h < body.Length2
    ensures body.Length0 == 1 && body[0, t - sink.Length1, h, SourceChannel(kept, c)] == src[0, t, h, c]
  {
    UndoneChannel(kept, order, c);
    var row, k := t - sink.Length1, SourceChannel(kept, c);
    assert body[0, row, h, k] == src[0, sink.Length1 + row, h, order[k]];
  }

  /** The half-scale bound holds for this pair of stored channels of a block of the body. */
  ghost predicate Safe(body: array4<real>, cfg: Config, blk: nat, h: nat, d: nat)
    requires cfg.groupSize > 0 && body.Length0 == 1 && blk < NumBlocks(body.Length1, cfg.groupSize)
    requires h < body.Length2 && 2 * d + 1 < body.Length3
    reads body
  {
    var pair := Pair(body, 0, blk, cfg.groupSize, h, d);
    cfg.bits == 4 || MinOf(pair) == MaxOf(pair)
  }

  /** Entry (t, h, c) of all is that of src: exactly in a sink row, and in any other within the
      tolerance of its block and pair if the width is 4 or the pair is flat there. */
  ghost predicate EntryBack(all: array4<real>, q: Packed, body: array4<real>, src: array4<real>, kept: seq<int>,
                            cfg: Config, t: nat, h: nat, c: nat)
    requires cfg.groupSize > 0 && src.Length0 == 1 && t < src.Length1 && h < src.Length2 && c < src.Length3
    requires IsPermutation(kept) && (kept == [] || c < |kept|) && body.Length1 <= src.Length1
    reads all, q.scales, src, body
  {
    var sinks := src.Length1 - body.Length1;
    && all.Length0 == 1 && t < all.Length1 && h < all.Length2 && c < all.Length3
    && if t < sinks then all[0, t, h, c] == src[0, t, h, c]
       else CloseTo(all[0, t, h, c], src[0, t, h, c], q, body, cfg, t - sinks, h, SourceChannel(kept, c))
  }

  /** x is within the tolerance of row and channel k of the body of y, where that is safe. */
  ghost predicate CloseTo(x: real, y: real, q: Packed, body: array4<real>, cfg: Config, row: nat, h: nat, k: int)
    requires cfg.groupSize > 0
    reads q.scales, body
  {
    var blk, d := BlockOf(row, cfg.groupSize), k / 2;
    && blk == row / cfg.groupSize
    && 0 <= blk < q.scales.Length0 && h < q.scales.Length1 && 0 <= d < q.scales.Length2
    && body.Length0 == 1 && blk < NumBlocks(body.Length1, cfg.groupSize)
    && h < body.Length2 && 2 * d + 1 < body.Length3
    && (Safe(body, cfg, blk, h, d) ==> Within(x, y, Tolerance(Pair(body, 0, blk, cfg.groupSize, h, d))))
  }

  lemma EntryComesBack(q: Packed, sink: array4<real>, body: array4<real>, src: array4<real>, order: seq<int>,
                       kept: seq<int>, cfg: Config, all: array4<real>, t: nat, h: nat, c: nat)
    requires cfg.groupSize > 0 && src.Length0 == 1 && |order| % 2 == 0 && |order| <= src.Length3
    requires Undoes(kept, order) && HoldsStates(q, sink, body, src, order, cfg)
    requires IsDequantized(all, q, sink, kept, cfg.groupSize)
    requires t < src.Length1 && h < src.Length2 && c < |order|
    ensures EntryBack(all, q, body, src, kept, cfg, t, h, c)
  {
    SameExtents(q, sink, body, src, order, kept, cfg, all);
    if t < sink.Length1 {
      SinkComesBack(q, sink, body, src, order, kept, cfg, all, t, h, c);
    } else {
      BodyGathered(q, sink, body, src, order, kept, cfg, t, h, c);
      BodyEntry(q, body, cfg, t - sink.Length1, h, SourceChannel(kept, c));
      BodyIsClose(all, q, sink, body, kept, cfg, t, h, c);
    }
  }

  lemma SameExtents(q: Packed, sink: array4<real>, body: array4<real>, src: array4<real>, order: seq<int>,
                    kept: seq<int>, cfg: Config, all: array4<real>)
    requires cfg.groupSize > 0 && src.Length0 == 1 && |order| % 2 == 0 && |order| <= src.Length3
    requires Undoes(kept, order) && HoldsStates(q, sink, body, src, order, cfg)
    requires IsDequantized(all, q, sink, kept, cfg.groupSize)
    ensures all.Length0 == 1 && all.Length2 == src.Length2 && all.Length3 == |order|
    ensures sink.Length1 == Min(cfg.sinkTokens, src.Length1) && sink.Length1 + body.Length1 == src.Length1
  {
  }

  lemma BodyIsClose(all: array4<real>, q: Packed, sink: array4<real>, body: array4<real>, kept: seq<int>, cfg: Config,
                    t: nat, h: nat, c: nat)
    requires cfg.groupSize > 0 && body.Length0 == 1 && body.Length3 % 2 == 0
    requires Quantizes(q, body, 0, cfg.groupSize, cfg.bits) && WellPacked(q, sink, cfg.groupSize)
    requires sink.Length0 == 1 && IsPermutation(kept) && (kept == [] || |kept| == sink.Length3)
    requires IsDequantized(all, q, sink, kept, cfg.groupSize)
    requires sink.Length1 <= t < all.Length1 && h < all.Length2 && c < all.Length3
    requires t - sink.Length1 < body.Length1 && h < body.Length2 && 0 <= SourceChannel(kept, c) < body.Length3
    ensures var row, k := t - sink.Length1, SourceChannel(kept, c);
            CloseTo(all[0, t, h, c], body[0, row, h, k], q, body, cfg, row, h, k)
  {
    DequantizedRow(all, q, sink, kept, cfg.groupSize, t, h, c);
    EntryWithin(q, body, cfg, t - sink.Length1, h, SourceChannel(kept, c));
  }

  lemma EntryWithin(q: Packed, body: array4<real>, cfg: Config, row: nat, h: nat, k: nat)
    requires cfg.groupSize > 0 && body.Length0 == 1 && body.Length3 % 2 == 0
    requires Quantizes(q, body, 0, cfg.groupSize, cfg.bits)
    requires row < body.Length1 && h < body.Length2 && k < body.Length3
    ensures BlockOf(row, cfg.groupSize) < q.codes.Length0
    ensures CloseTo(RestoredEntry(q, row, cfg.groupSize, h, k), body[0, row, h, k], q, body, cfg, row, h, k)
  {
    var g, d := cfg.groupSize, k / 2;
    BlockOfIsQuotient(row, g);
    RowOfBlock(row, g);
    NoBlockIsEmpty(body.Length1, g, BlockOf(row, g));
    PairComesBackIff(q, body, 0, BlockOf(row, g), g, h, d, cfg.bits);
    var pair := Pair(body, 0, BlockOf(row, g), g, h, d);
    assert StoredAt(q, row, g, h, k).p == GroupParams(pair, cfg.bits);
    if Safe(body, cfg, BlockOf(row, g), h, d) {
      HalfScaleIsTolerance(pair, cfg.bits);
      assert HalfScaleOff(StoredAt(q, row, g, h, k), body[0, row, h, k]);
    }
  }

  /** All entries of src that were coded as pair d of block blk are within half its scale. */
  ghost predicate PairBack(all: array4<real>, q: Packed, sinks: nat, src: array4<real>, order: seq<int>, kept: seq<int>,
                           cfg: Config, blk: nat, h: nat, d: nat)
    requires cfg.groupSize > 0 && src.Length0 == 1 && h < src.Length2 && |order| <= src.Length3
    requires Undoes(kept, order) && blk < q.scales.Length0 && h < q.scales.Length1 && d < q.scales.Length2
    reads all, q.scales, src
  {
    forall t: nat, c: nat | sinks <= t < src.Length1 && c < |order| &&
                            BlockOf(t - sinks, cfg.groupSize) == blk && SourceChannel(kept, c) / 2 == d ::
      BackAt(all, src, q.scales[blk, h, d], t, h, c)
  }

  ghost predicate BackAt(all: array4<real>, src: array4<real>, scale: real, t: nat, h: nat, c: nat)
    requires src.Length0 == 1 && t < src.Length1 && h < src.Length2 && c < src.Length3
    reads all, src
  {
    && all.Length0 == 1 && t < all.Length1 && h < all.Length2 && c < all.Length3
    && Within(all[0, t, h, c], src[0, t, h, c], scale * 0.5)
  }

  /** That is so exactly when the width is 4 or the pair is flat on the block. */
  lemma PairBackIff(q: Packed, sink: array4<real>, body: array4<real>, src: array4<real>, order: seq<int>,
                    kept: seq<int>, cfg: Config, all: array4<real>, blk: nat, h: nat, d: nat)
    requires cfg.groupSize > 0 && src.Length0 == 1 && |order| % 2 == 0 && |order| <= src.Length3
    requires Undoes(kept, order) && HoldsStates(q, sink, body, src, order, cfg)
    requires IsDequantized(all, q, sink, kept, cfg.groupSize)
    requires blk < NumBlocks(body.Length1, cfg.groupSize) && h < src.Length2 && d < |order| / 2
    ensures PairBack(all, q, sink.Length1, src, order, kept, cfg, blk, h, d) <==> Safe(body, cfg, blk, h, d)
  {
    IsReadBack(q, sink, body, src, order, kept, cfg, all, blk, h, d);
    BackIffStored(q, body, src, sink.Length1, order, kept, cfg, all, blk, h, d);
    PairComesBackIff(q, body, 0, blk, cfg.groupSize, h, d, cfg.bits);
  }

  lemma IsReadBack(q: Packed, sink: array4<real>, body: array4<real>, src: array4<real>, order: seq<int>,
                   kept: seq<int>, cfg: Config, all: array4<real>, blk: nat, h: nat, d: nat)
    requires cfg.groupSize > 0 && src.Length0 == 1 && |order| % 2 == 0 && |order| <= src.Length3
    requires Undoes(kept, order) && HoldsStates(q, sink, body, src, order, cfg)
    requires IsDequantized(all, q, sink, kept, cfg.groupSize)
    requires blk < NumBlocks(body.Length1, cfg.groupSize) && h < src.Length2 && d < |order| / 2
    ensures ReadBack(q, body, src, sink.Length1, order, kept, cfg, all, blk, h, d)
  {
    forall t: nat, c: nat | sink.Length1 <= t < src.Length1 && c < |order|
      ensures EntryRead(q, body, all, src, sink.Length1, cfg.groupSize, t, h, c, SourceChannel(kept, c))
    {
      BodyComesBack(q, sink, body, src, order, kept, cfg, all, t, h, c);
      UndoneChannel(kept, order, c);
    }
  }

  lemma BackIffStored(q: Packed, body: array4<real>, src: array4<real>, sinks: nat, order: seq<int>, kept: seq<int>,
                      cfg: Config, all: array4<real>, blk: nat, h: nat, d: nat)
    requires ReadBack(q, body, src, sinks, order, kept, cfg, all, blk, h, d)
    ensures PairBack(all, q, sinks, src, order, kept, cfg, blk, h, d) <==>
            PairComesBack(q, body, 0, blk, cfg.groupSize, h, d)
  {
    if PairBack(all, q, sinks, src, order, kept, cfg, blk, h, d) {
      BackIsStored(q, body, src, sinks, order, kept, cfg, all, blk, h, d);
    }
    StoredIsBack(q, body, src, sinks, order, kept, cfg, all, blk, h, d);
  }

  lemma BackIsStored(q: Packed, body: array4<real>, src: array4<real>, sinks: nat, order: seq<int>, kept: seq<int>,
                     cfg: Config, all: array4<real>, blk: nat, h: nat, d: nat)
    requires ReadBack(q, body, src, sinks, order, kept, cfg, all, blk, h, d)
    requires PairBack(all, q, sinks, src, order, kept, cfg, blk, h, d)
    ensures PairComesBack(q, body, 0, blk, cfg.groupSize, h, d)
  {
    var g := cfg.groupSize;
    forall row: nat, k: nat | row < body.Length1 && BlockOf(row, g) == blk && k / 2 == d
      ensures HalfScaleOff(StoredAt(q, row, g, h, k), body[0, row, h, k])
    {
      InverseIsPermutation(order);
      var t, c := row + sinks, order[k];
      assert SourceChannel(kept, c) == k;
      assert BackAt(all, src, q.scales[blk, h, d], t, h, c);
      assert EntryRead(q, body, all, src, sinks, g, t, h, c, SourceChannel(kept, c));
    }
  }

  lemma StoredIsBack(q: Packed, body: array4<real>, src: array4<real>, sinks: nat, order: seq<int>, kept: seq<int>,
                     cfg: Config, all: array4<real>, blk: nat, h: nat, d: nat)
    requires ReadBack(q, body, src, sinks, order, kept, cfg, all, blk, h, d)
    ensures PairComesBack(q, body, 0, blk, cfg.groupSize, h, d) ==>
              PairBack(all, q, sinks, src, order, kept, cfg, blk, h, d)
  {
    if PairComesBack(q, body, 0, blk, cfg.groupSize, h, d) {
      forall t: nat, c: nat | sinks <= t < src.Length1 && c < |order| &&
                              BlockOf(t - sinks, cfg.groupSize) == blk && SourceChannel(kept, c) / 2 == d
        ensures BackAt(all, src, q.scales[blk, h, d], t, h, c)
      {
        assert EntryRead(q, body, all, src, sinks, cfg.groupSize, t, h, c, SourceChannel(kept, c));
      }
    }
  }

  /** All entries of body rows are read from where they were coded. */
  ghost predicate ReadBack(q: Packed, body: array4<real>, src: array4<real>, sinks: nat, order: seq<int>,
                           kept: seq<int>, cfg: Config, all: array4<real>, blk: nat, h: nat, d: nat)
    reads q.codes, q.scales, q.zeros, body, all, src
  {
    && cfg.groupSize > 0 && src.Length0 == 1 && |order| <= src.Length3 && |order| % 2 == 0 && Undoes(kept, order)
    && body.Length0 == 1 && body.Length1 == src.Length1 - sinks && body.Length2 == src.Length2
    && body.Length3 == |order| && blk < NumBlocks(body.Length1, cfg.groupSize) && h < src.Length2 && d < |order| / 2
    && Shaped(q, NumBlocks(body.Length1, cfg.groupSize), cfg.groupSize, body.Length2, body.Length3 / 2)
    && forall t: nat, c: nat | sinks <= t < src.Length1 && c < |order| ::
         EntryRead(q, body, all, src, sinks, cfg.groupSize, t, h, c, SourceChannel(kept, c))
  }

  /** What an entry of a body row is read from, and what it was coded from. */
  ghost predicate EntryRead(q: Packed, body: array4<real>, all: array4<real>, src: array4<real>, sinks: nat, g: nat,
                            t: nat, h: nat, c: nat, k: int)
    requires g > 0 && src.Length0 == 1 && sinks <= t < src.Length1 && h < src.Length2 && c < src.Length3
    reads q.codes, q.scales, q.zeros, body, all, src
  {
    var row := t - sinks;
    && Shaped(q, q.codes.Length0, g, q.codes.Length2, q.codes.Length3) && body.Length0 == all.Length0 == 1
    && row < body.Length1 && h < body.Length2 && 0 <= k < body.Length3
    && t < all.Length1 && h < all.Length2 && c < all.Length3
    && BlockOf(row, g) < q.codes.Length0 && h < q.codes.Length2 && k < 2 * q.codes.Length3
    && body[0, row, h, k] == src[0, t, h, c] && all[0, t, h, c] == RestoredEntry(q, row, g, h, k)
  }

  lemma UndoneChannel(kept: seq<int>, order: seq<int>, c: nat)
    requires Undoes(kept, order) && c < |order|
    ensures 0 <= SourceChannel(kept, c) < |order| && order[SourceChannel(kept, c)] == c
  {
    InverseIsPermutation(order);
  }

  lemma BodyEntry(q: Packed, body: array4<real>, cfg: Config, row: nat, h: nat, k: nat)
    requires cfg.groupSize > 0 && body.Length0 == 1 && body.Length3 % 2 == 0
    requires Quantizes(q, body, 0, cfg.groupSize, cfg.bits)
    requires row < body.Length1 && h < body.Length2 && k < body.Length3
    ensures var g := cfg.groupSize;
            && row < BlockStart(q.codes.Length0, g)
            && BlockOf(row, g) == row / g && row / g < q.scales.Length0
            && (cfg.bits == 4 ==> HalfScaleOff(StoredAt(q, row, g, h, k), body[0, row, h, k]))
  {
    var g := cfg.groupSize;
    BlockOfIsQuotient(row, g);
    ReadBackIsCoded(q, body, 0, g, cfg.bits, row, h, k);
    RowHasBlock(row, g, q.codes.Length0);
    PairComesBackIff(q, body, 0, BlockOf(row, g), g, h, k / 2, cfg.bits);
  }

  class RotateKVQuantizer {
    const config: Config
    var channelOrder: Option<seq<int>>

    ghost predicate Valid()
      reads this
    {
      config.groupSize > 0 && (channelOrder.Some? ==> IsPermutation(channelOrder.value))
    }

    constructor (config: Config)
      requires config.groupSize > 0
      ensures Valid() && channelOrder == None && this.config == config
    {
      this.config := config;
      channelOrder := None;
    }

    /** Orders the flattened channels by non-decreasing magnitude over the first samples. */
    method Calibrate(sample: array4<real>, maxSamples: nat)
      requires Valid()
      modifies this
      ensures Valid() && channelOrder.Some?
      ensures IsArgsort(channelOrder.value, Magnitudes(sample, Min(maxSamples, sample.Length0)))
    {
      var magnitudes := Magnitudes(sample, Min(maxSamples, sample.Length0));
      ArgsortSorts(magnitudes);
      channelOrder := Some(Argsort(magnitudes));
    }

    /** The order applied to keys of a given head dimension: the calibrated one if any. */
    function OrderFor(dim: nat): seq<int>
      reads this
    {
      if channelOrder.None? then Identity(dim) else channelOrder.value
    }

    /** None when the calibrated order names a channel the keys do not have, which is when
        it is longer than their head dimension. An odd number of channels does not reshape
        into pairs. */
    method QuantizePreRope(keys: array4<real>, values: array4<real>)
      returns (r: Option<QuantizedKVBlock>, keysBody: array4<real>, ghost valuesBody: array4<real>)
      requires Valid() && values.Length3 % 2 == 0 && |OrderFor(keys.Length3)| % 2 == 0
      ensures r.Some? <==> |OrderFor(keys.Length3)| <= keys.Length3
      ensures r.Some? ==>
                && var blk := r.value;
                && blk.channelOrder == (if channelOrder.None? then [] else channelOrder.value)
                && HoldsStates(blk.keys, blk.keysSink, keysBody, keys, OrderFor(keys.Length3), config)
                && HoldsStates(blk.values, blk.valuesSink, valuesBody, values, Identity(values.Length3), config)
    {
      var order := OrderFor(keys.Length3);
      valuesBody := values;
      LongOrderOverflows(order, keys.Length3);
      if exists c :: 0 <= c < |order| && order[c] >= keys.Length3 {
        return None, keys, values;
      }
      var qk, ks, kb := SplitAndPack(keys, order, config);
      var qv, vs, vb := SplitAndPack(values, Identity(values.Length3), config);
      keysBody, valuesBody := kb, vb;
      r := Some(QuantizedKVBlock(qk, qv, ks, vs, if channelOrder.None? then [] else channelOrder.value));
    }

    /** None when the sinks carry a batch other than one document: they no longer
        concatenate with the body, which has a leading axis of length one. */
    method Dequantize(blk: QuantizedKVBlock) returns (r: Option<(array4<real>, array4<real>)>)
      requires Valid() && WellPacked(blk.keys, blk.keysSink, config.groupSize)
      requires WellPacked(blk.values, blk.valuesSink, config.groupSize)
      requires IsPermutation(blk.channelOrder) && (blk.channelOrder == [] || |blk.channelOrder| == blk.keysSink.Length3)
      ensures r.Some? <==> blk.keysSink.Length0 == 1 && blk.valuesSink.Length0 == 1
      ensures r.Some? ==> IsDequantized(r.value.0, blk.keys, blk.keysSink, blk.channelOrder, config.groupSize)
      ensures r.Some? ==> IsDequantized(r.value.1, blk.values, blk.valuesSink, [], config.groupSize)
    {
      if blk.keysSink.Length0 != 1 || blk.valuesSink.Length0 != 1 {
        return None;
      }
      var g := config.groupSize;
      var keys := RestoreStates(blk.keys, blk.keysSink, g);
      var values := RestoreStates(blk.values, blk.valuesSink, g);
      if |blk.channelOrder| > 0 {
        InverseIsPermutation(blk.channelOrder);
        var reordered := Gather(keys, InverseOf(blk.channelOrder), 0, keys.Length1);
        r := Some((reordered, values));
      } else {
        r := Some((keys, values));
      }
    }

    /** quantize_pre_rope, then dequantize, of a single document: fails only when the calibrated
        order is too long, and otherwise puts every key and value back at its own place. A pair
        of stored channels comes back within half its scale exactly when it is safe. */
    method RoundTrip(keys: array4<real>, values: array4<real>)
      returns (r: Option<(array4<real>, array4<real>)>, blk: Option<QuantizedKVBlock>, keysBody: array4<real>,
               ghost valuesBody: array4<real>)
      requires Valid() && keys.Length0 == 1 && values.Length0 == 1
      requires values.Length3 % 2 == 0 && |OrderFor(keys.Length3)| % 2 == 0
      ensures r.Some? <==> |OrderFor(keys.Length3)| <= keys.Length3
      ensures r.Some? ==>
                && blk.Some? && keysBody.Length1 <= keys.Length1 && valuesBody.Length1 <= values.Length1
                && var b, order := blk.value, OrderFor(keys.Length3);
                && Undoes(b.channelOrder, order)
                && (forall t, h, c | 0 <= t < keys.Length1 && 0 <= h < keys.Length2 && 0 <= c < |order| ::
                      EntryBack(r.value.0, b.keys, keysBody, keys, b.channelOrder, config, t, h, c))
                && (forall t, h, c | 0 <= t < values.Length1 && 0 <= h < values.Length2 && 0 <= c < values.Length3 ::
                      EntryBack(r.value.1, b.values, valuesBody, values, [], config, t, h, c))
                && KeyPairsBack(r.value.0, b, keysBody, keys, order)
    {
      blk, keysBody, valuesBody := QuantizePreRope(keys, values);
      if blk.None? {
        return None, None, keysBody, valuesBody;
      }
      var b, order := blk.value, OrderFor(keys.Length3);
      r := Dequantize(b);
      forall t, h, c | 0 <= t < keys.Length1 && 0 <= h < keys.Length2 && 0 <= c < |order|
        ensures EntryBack(r.value.0, b.keys, keysBody, keys, b.channelOrder, config, t, h, c)
      {
        EntryComesBack(b.keys, b.keysSink, keysBody, keys, order, b.channelOrder, config, r.value.0, t, h, c);
      }
      forall t, h, c | 0 <= t < values.Length1 && 0 <= h < values.Length2 && 0 <= c < values.Length3
        ensures EntryBack(r.value.1, b.values, valuesBody, values, [], config, t, h, c)
      {
        EntryComesBack(b.values, b.valuesSink, valuesBody, values, Identity(values.Length3), [], config, r.value.1,
                       t, h, c);
      }
      AllKeyPairsBack(r.value.0, b, keysBody, keys, order);
    }

    /** Each pair of key channels of each block comes back exactly when it is safe. */
    ghost predicate KeyPairsBack(all: array4<real>, b: QuantizedKVBlock, body: array4<real>, keys: array4<real>,
                                 order: seq<int>)
      requires Valid() && keys.Length0 == 1 && |order| <= keys.Length3 && Undoes(b.channelOrder, order)
      requires body.Length1 <= keys.Length1
      reads this, all, b.keys.scales, body, keys
    {
      && body.Length0 == 1 && body.Length2 == keys.Length2 && body.Length3 == |order|
      && b.keys.scales.Length0 == NumBlocks(body.Length1, config.groupSize)
      && b.keys.scales.Length1 == keys.Length2 && b.keys.scales.Length2 == |order| / 2
      && forall blk, h, d | 0 <= blk < b.keys.scales.Length0 && 0 <= h < keys.Length2 && 0 <= d < |order| / 2 ::
           PairBack(all, b.keys, keys.Length1 - body.Length1, keys, order, b.channelOrder, config, blk, h, d) <==>
           Safe(body, config, blk, h, d)
    }

    lemma AllKeyPairsBack(all: array4<real>, b: QuantizedKVBlock, body: array4<real>, keys: array4<real>,
                          order: seq<int>)
      requires Valid() && keys.Length0 == 1 && |order| % 2 == 0 && |order| <= keys.Length3
      requires Undoes(b.channelOrder, order) && HoldsStates(b.keys, b.keysSink, body, keys, order, config)
      requires WellPacked(b.keys, b.keysSink, config.groupSize) && b.keysSink.Length0 == 1
      requires b.channelOrder == [] || |b.channelOrder| == b.keysSink.Length3
      requires IsDequantized(all, b.keys, b.keysSink, b.channelOrder, config.groupSize)
      ensures body.Length1 <= keys.Length1 && KeyPairsBack(all, b, body, keys, order)
    {
      forall blk, h, d | 0 <= blk < b.keys.scales.Length0 && 0 <= h < keys.Length2 && 0 <= d < |order| / 2
        ensures PairBack(all, b.keys, keys.Length1 - body.Length1, keys, order, b.channelOrder, config, blk, h, d) <==>
                Safe(body, config, blk, h, d)
      {
        PairBackIff(b.keys, b.keysSink, body, keys, order, b.channelOrder, config, all, blk, h, d);
      }
    }
  }
}
