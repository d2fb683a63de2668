/** The V8 codec (apohara_context_forge/quantization/codec_v8.py): every nibble has its own
    scale and zero point, and the batch axis survives. */
module CodecV8 {
  import opened Int4
  import opened Blocks
  import opened Padding
  import opened Grids

  /** codes[b, blk, i, h, d]; scales and zeros [b, blk, h, d, low or high nibble]. */
  datatype Batch = Batch(codes: array5<nat>, scales: array5<real>, zeros: array5<int>)

  /** The same without the document axis. */
  datatype Document = Document(codes: array4<nat>, scales: array4<real>, zeros: array4<int>)

  /** The byte at place i of a block whose two channels have the given real rows. */
  function TwoChannelByte(lo: seq<real>, hi: seq<real>, i: nat, bits: nat): nat
    requires |lo| == |hi|
  {
    if i >= |lo| then 0 else PackTwo(lo, i, hi, i, bits)
  }

  /** The byte at place i of a block, each half coded under its own channel's parameters. */
  function OwnByte(states: array4<real>, b: nat, blk: nat, i: nat, g: nat, h: nat, d: nat, bits: nat): nat
    requires g > 0 && blk < NumBlocks(states.Length1, g)
    requires b < states.Length0 && h < states.Length2 && 2 * d + 1 < states.Length3
    reads states
  {
    TwoChannelByte(BlockChannel(states, b, blk, g, h, 2 * d), BlockChannel(states, b, blk, g, h, 2 * d + 1), i, bits)
  }

  ghost predicate ShapedBatch(q: Batch, docs: nat, blocks: nat, g: nat, heads: nat, pairs: nat) {
    && q.codes.Length0 == docs && q.codes.Length1 == blocks && q.codes.Length2 == g
    && q.codes.Length3 == heads && q.codes.Length4 == pairs
    && q.scales.Length0 == docs && q.scales.Length1 == blocks && q.scales.Length2 == heads
    && q.scales.Length3 == pairs && q.scales.Length4 == 2
    && q.zeros.Length0 == docs && q.zeros.Length1 == blocks && q.zeros.Length2 == heads
    && q.zeros.Length3 == pairs && q.zeros.Length4 == 2
  }

  ghost predicate ShapedFor(q: Batch, states: array4<real>, g: nat)
    requires g > 0
  {
    ShapedBatch(q, states.Length0, NumBlocks(states.Length1, g), g, states.Length2, states.Length3 / 2)
  }

  ghost predicate BatchParams(q: Batch, states: array4<real>, g: nat, bits: nat)
    requires g > 0 && ShapedFor(q, states, g)
    reads q.scales, q.zeros, states
  {
    forall b, blk, h, d, n | 0 <= b < q.scales.Length0 && 0 <= blk < q.scales.Length1 && 0 <= h < q.scales.Length2 &&
                             0 <= d < q.scales.Length3 && 0 <= n < 2 ::
      Params(q.scales[b, blk, h, d, n], q.zeros[b, blk, h, d, n]) ==
        GroupParams(BlockChannel(states, b, blk, g, h, 2 * d + n), bits)
  }

  ghost predicate BatchBytes(q: Batch, states: array4<real>, g: nat, bits: nat)
    requires g > 0 && ShapedFor(q, states, g)
    reads q.codes, states
  {
    forall b, blk, i, h, d | 0 <= b < q.codes.Length0 && 0 <= blk < q.codes.Length1 && 0 <= i < g &&
                             0 <= h < q.codes.Length3 && 0 <= d < q.codes.Length4 ::
      q.codes[b, blk, i, h, d] == OwnByte(states, b, blk, i, g, h, d, bits)
  }

  // ----- _quantize_block_batched

  ghost predicate BatchBuffered(q: Batch, buf: array4<real>, mask: array2<bool>, blocks: nat, g: nat) {
    && Blocked(buf, mask, blocks, g) && buf.Length3 % 2 == 0
    && ShapedBatch(q, buf.Length0, blocks, g, buf.Length2, buf.Length3 / 2)
  }

  /** Scales and zero points come from the masked columns of the buffer. */
  ghost predicate BatchCalibrated(q: Batch, buf: array4<real>, mask: array2<bool>, blocks: nat, g: nat, bits: nat)
    requires g > 0 && BatchBuffered(q, buf, mask, blocks, g)
    reads q.scales, q.zeros, buf, mask
  {
    forall b, blk, h, d, n | 0 <= b < q.scales.Length0 && 0 <= blk < q.scales.Length1 && 0 <= h < q.scales.Length2 &&
                             0 <= d < q.scales.Length3 && 0 <= n < 2 ::
      && BlockStart(blk, g) + g <= buf.Length1
      && Params(q.scales[b, blk, h, d, n], q.zeros[b, blk, h, d, n]) ==
         MaskedParams(Column(buf, mask, b, blk, g, h, 2 * d + n), bits)
  }

  /** The byte of a row of the buffer, real or padding, under the stored parameters. */
  function BatchRowByte(q: Batch, buf: array4<real>, b: nat, blk: nat, i: nat, g: nat, h: nat, d: nat, bits: nat): nat
    requires b < buf.Length0 && BlockStart(blk, g) + i < buf.Length1 && h < buf.Length2 && 2 * d + 1 < buf.Length3
    requires b < q.scales.Length0 == q.zeros.Length0 && blk < q.scales.Length1 == q.zeros.Length1
    requires h < q.scales.Length2 == q.zeros.Length2 && d < q.scales.Length3 == q.zeros.Length3
    requires q.scales.Length4 == q.zeros.Length4 == 2
    requires q.scales[b, blk, h, d, 0] >= 0.0 && q.scales[b, blk, h, d, 1] >= 0.0
    reads q.scales, q.zeros, buf
  {
    var row := BlockStart(blk, g) + i;
    PackByte(SafeCode(buf[b, row, h, 2 * d], Params(q.scales[b, blk, h, d, 0], q.zeros[b, blk, h, d, 0]), bits),
             SafeCode(buf[b, row, h, 2 * d + 1], Params(q.scales[b, blk, h, d, 1], q.zeros[b, blk, h, d, 1]), bits))
  }

  /** The result for a batch: scale, zero point and codes of a document are those of its own
      real rows, and padded rows pack to 0. */
  method QuantizeBatched(states: array4<real>, g: nat, bits: nat) returns (q: Batch)
    requires g > 0 && states.Length3 % 2 == 0
    ensures ShapedFor(q, states, g) && BatchParams(q, states, g, bits) && BatchBytes(q, states, g, bits)
    ensures BatchScalesFit(q, states, g, bits)
  {
    var docs, heads, pairs := states.Length0, states.Length2, states.Length3 / 2;
    var blocks := NumBlocks(states.Length1, g);
    var codes := new nat[docs, blocks, g, heads, pairs]((_, _, _, _, _) => 0);
    var scales := new real[docs, blocks, heads, pairs, 2]((_, _, _, _, _) => 0.0);
    var zeros := new int[docs, blocks, heads, pairs, 2]((_, _, _, _, _) => 0);
    q := Batch(codes, scales, zeros);
    var buf, mask := PadRows(states, 0, docs, g);
    CalibrateChannels(q, buf, mask, blocks, g, bits);
    CalibratedIsBatchParams(q, buf, mask, states, g, bits);
    CodeRows(q, buf, mask, blocks, g, bits);
    CodedIsBatchBytes(q, buf, mask, states, g, bits);
    BatchParamsFit(q, states, g, bits);
  }

  /** Every stored scale and zero point fits the real values of its document, block and channel. */
  ghost predicate BatchScalesFit(q: Batch, states: array4<real>, g: nat, bits: nat)
    requires g > 0 && ShapedFor(q, states, g)
    reads q.scales, q.zeros, states
  {
    forall b, blk, h, d, n | 0 <= b < q.scales.Length0 && 0 <= blk < q.scales.Length1 && 0 <= h < q.scales.Length2 &&
                             0 <= d < q.scales.Length3 && 0 <= n < 2 ::
      ScaleFits(q.scales[b, blk, h, d, n], q.zeros[b, blk, h, d, n], BlockChannel(states, b, blk, g, h, 2 * d + n),
                bits)
  }

  lemma BatchParamsFit(q: Batch, states: array4<real>, g: nat, bits: nat)
    requires g > 0 && ShapedFor(q, states, g) && BatchParams(q, states, g, bits)
    ensures BatchScalesFit(q, states, g, bits)
  {
    forall b, blk, h, d, n | 0 <= b < q.scales.Length0 && 0 <= blk < q.scales.Length1 && 0 <= h < q.scales.Length2 &&
                             0 <= d < q.scales.Length3 && 0 <= n < 2
      ensures ScaleFits(q.scales[b, blk, h, d, n], q.zeros[b, blk, h, d, n],
                        BlockChannel(states, b, blk, g, h, 2 * d + n), bits)
    {
      OwnParams(q, states, g, bits, b, blk, h, d, n);
      GroupScaleFits(BlockChannel(states, b, blk, g, h, 2 * d + n), bits);
    }
  }

  method CalibrateChannels(q: Batch, buf: array4<real>, mask: array2<bool>, blocks: nat, g: nat, bits: nat)
    requires g > 0 && BatchBuffered(q, buf, mask, blocks, g)
    modifies q.scales, q.zeros
    ensures BatchCalibrated(q, buf, mask, blocks, g, bits)
  {
    BlocksFit(blocks, g);
    forall b, blk, h, d, n | 0 <= b < q.scales.Length0 && 0 <= blk < q.scales.Length1 && 0 <= h < q.scales.Length2 &&
                             0 <= d < q.scales.Length3 && 0 <= n < 2 {
      q.scales[b, blk, h, d, n] := MaskedParams(Column(buf, mask, b, blk, g, h, 2 * d + n), bits).scale;
    }
    forall b, blk, h, d, n | 0 <= b < q.scales.Length0 && 0 <= blk < q.scales.Length1 && 0 <= h < q.scales.Length2 &&
                             0 <= d < q.scales.Length3 && 0 <= n < 2 {
      q.zeros[b, blk, h, d, n] := MaskedParams(Column(buf, mask, b, blk, g, h, 2 * d + n), bits).zero;
    }
  }

  /** Codes every row of the buffer, then clears the bytes of padding by the mask. */
  method CodeRows(q: Batch, buf: array4<real>, mask: array2<bool>, blocks: nat, g: nat, bits: nat)
    requires g > 0 && BatchBuffered(q, buf, mask, blocks, g) && BatchCalibrated(q, buf, mask, blocks, g, bits)
    modifies q.codes
    ensures BatchCalibrated(q, buf, mask, blocks, g, bits) && BatchMasked(q, buf, mask, blocks, g, bits)
  {
    BlocksFit(blocks, g);
    ScalesNotNegative(q, buf, mask, blocks, g, bits);
    forall b, blk, i, h, d | 0 <= b < q.codes.Length0 && 0 <= blk < q.codes.Length1 && 0 <= i < g &&
                             0 <= h < q.codes.Length3 && 0 <= d < q.codes.Length4 {
      q.codes[b, blk, i, h, d] := BatchRowByte(q, buf, b, blk, i, g, h, d, bits);
    }
    ClearBatchPadding(q.codes, mask, g);
  }

  /** The bytes times the mask. */
  method ClearBatchPadding(codes: array5<nat>, mask: array2<bool>, g: nat)
    requires mask.Length0 == codes.Length0 && g == codes.Length2
    requires forall blk: nat :: blk < codes.Length1 ==> BlockStart(blk, g) + g <= mask.Length1
    modifies codes
    ensures forall b, blk, i, h, d | 0 <= b < codes.Length0 && 0 <= blk < codes.Length1 && 0 <= i < g &&
                                     0 <= h < codes.Length3 && 0 <= d < codes.Length4 ::
              codes[b, blk, i, h, d] == if mask[b, BlockStart(blk, g) + i] then old(codes[b, blk, i, h, d]) else 0
  {
    forall b, blk, i, h, d | 0 <= b < codes.Length0 && 0 <= blk < codes.Length1 && 0 <= i < g &&
                             0 <= h < codes.Length3 && 0 <= d < codes.Length4 {
      codes[b, blk, i, h, d] := if mask[b, BlockStart(blk, g) + i] then codes[b, blk, i, h, d] else 0;
    }
  }

  lemma ScalesNotNegative(q: Batch, buf: array4<real>, mask: array2<bool>, blocks: nat, g: nat, bits: nat)
    requires g > 0 && BatchBuffered(q, buf, mask, blocks, g) && BatchCalibrated(q, buf, mask, blocks, g, bits)
    ensures forall b, blk, h, d, n | 0 <= b < q.scales.Length0 && 0 <= blk < q.scales.Length1 &&
                                     0 <= h < q.scales.Length2 &&
                                     0 <= d < q.scales.Length3 && 0 <= n < 2 :: q.scales[b, blk, h, d, n] >= 0.0
  {
    forall b, blk, h, d, n | 0 <= b < q.scales.Length0 && 0 <= blk < q.scales.Length1 && 0 <= h < q.scales.Length2 &&
                             0 <= d < q.scales.Length3 && 0 <= n < 2 ensures q.scales[b, blk, h, d, n] >= 0.0
    {
      assert Params(q.scales[b, blk, h, d, n], q.zeros[b, blk, h, d, n]).scale >= 0.0;
    }
  }

  ghost predicate BatchMasked(q: Batch, buf: array4<real>, mask: array2<bool>, blocks: nat, g: nat, bits: nat)
    requires g > 0 && BatchBuffered(q, buf, mask, blocks, g) && BatchCalibrated(q, buf, mask, blocks, g, bits)
    reads q.codes, q.scales, q.zeros, buf, mask
  {
    BlocksFit(blocks, g);
    ScalesNotNegative(q, buf, mask, blocks, g, bits);
    forall b, blk, i, h, d | 0 <= b < q.codes.Length0 && 0 <= blk < q.codes.Length1 && 0 <= i < g &&
                             0 <= h < q.codes.Length3 && 0 <= d < q.codes.Length4 ::
      q.codes[b, blk, i, h, d] ==
      if mask[b, BlockStart(blk, g) + i] then BatchRowByte(q, buf, b, blk, i, g, h, d, bits) else 0
  }

  /** The masked reductions over the padded buffer are those of each document's own rows. */
  lemma CalibratedIsBatchParams(q: Batch, buf: array4<real>, mask: array2<bool>, states: array4<real>, g: nat,
                                bits: nat)
    requires g > 0 && Padded(buf, mask, states, 0, g) && buf.Length0 == states.Length0 && states.Length3 % 2 == 0
    requires BatchBuffered(q, buf, mask, NumBlocks(states.Length1, g), g)
    requires BatchCalibrated(q, buf, mask, NumBlocks(states.Length1, g), g, bits)
    ensures ShapedFor(q, states, g) && BatchParams(q, states, g, bits)
  {
    forall b, blk, h, d, n | 0 <= b < q.scales.Length0 && 0 <= blk < q.scales.Length1 && 0 <= h < q.scales.Length2 &&
                             0 <= d < q.scales.Length3 && 0 <= n < 2
      ensures Params(q.scales[b, blk, h, d, n], q.zeros[b, blk, h, d, n]) ==
              GroupParams(BlockChannel(states, b, blk, g, h, 2 * d + n), bits)
    {
      var c := 2 * d + n;
      ColumnIsChannel(buf, mask, states, 0, b, blk, g, h, c);
      MaskedGroup(Column(buf, mask, b, blk, g, h, c), BlockChannel(states, b, blk, g, h, c), bits);
    }
  }

  /** Bytes coded from the buffer and cleared by the mask are those of the real rows, and 0. */
  lemma CodedIsBatchBytes(q: Batch, buf: array4<real>, mask: array2<bool>, states: array4<real>, g: nat, bits: nat)
    requires g > 0 && Padded(buf, mask, states, 0, g) && buf.Length0 == states.Length0 && states.Length3 % 2 == 0
    requires BatchBuffered(q, buf, mask, NumBlocks(states.Length1, g), g)
    requires BatchCalibrated(q, buf, mask, NumBlocks(states.Length1, g), g, bits)
    requires BatchMasked(q, buf, mask, NumBlocks(states.Length1, g), g, bits)
    requires ShapedFor(q, states, g) && BatchParams(q, states, g, bits)
    ensures BatchBytes(q, states, g, bits)
  {
    BlocksFit(NumBlocks(states.Length1, g), g);
    ScalesNotNegative(q, buf, mask, NumBlocks(states.Length1, g), g, bits);
    forall b, blk, i, h, d | 0 <= b < q.codes.Length0 && 0 <= blk < q.codes.Length1 && 0 <= i < g &&
                             0 <= h < q.codes.Length3 && 0 <= d < q.codes.Length4
      ensures q.codes[b, blk, i, h, d] == OwnByte(states, b, blk, i, g, h, d, bits)
    {
      OwnParams(q, states, g, bits, b, blk, h, d, 0);
      OwnParams(q, states, g, bits, b, blk, h, d, 1);
      if BlockStart(blk, g) + i < states.Length1 {
        RowByteIsOwn(q, buf, states, g, bits, b, blk, i, h, d);
      } else {
        OwnByteAt(states, b, blk, i, g, h, d, bits);
      }
    }
  }

  lemma RowByteIsOwn(q: Batch, buf: array4<real>, states: array4<real>, g: nat, bits: nat,
                     b: nat, blk: nat, i: nat, h: nat, d: nat)
    requires g > 0 && ShapedFor(q, states, g) && i < g && blk < NumBlocks(states.Length1, g)
    requires b < states.Length0 && h < states.Length2 && d < states.Length3 / 2
    requires b < buf.Length0 && BlockStart(blk, g) + i < buf.Length1 && h < buf.Length2 && 2 * d + 1 < buf.Length3
    requires BlockStart(blk, g) + i < states.Length1
    requires buf[b, BlockStart(blk, g) + i, h, 2 * d] == states[b, BlockStart(blk, g) + i, h, 2 * d]
    requires buf[b, BlockStart(blk, g) + i, h, 2 * d + 1] == states[b, BlockStart(blk, g) + i, h, 2 * d + 1]
    requires Params(q.scales[b, blk, h, d, 0], q.zeros[b, blk, h, d, 0]) ==
             GroupParams(BlockChannel(states, b, blk, g, h, 2 * d), bits)
    requires Params(q.scales[b, blk, h, d, 1], q.zeros[b, blk, h, d, 1]) ==
             GroupParams(BlockChannel(states, b, blk, g, h, 2 * d + 1), bits)
    ensures q.scales[b, blk, h, d, 0] > 0.0 && q.scales[b, blk, h, d, 1] > 0.0
    ensures OwnByte(states, b, blk, i, g, h, d, bits) == BatchRowByte(q, buf, b, blk, i, g, h, d, bits)
  {
    OwnByteAt(states, b, blk, i, g, h, d, bits);
  }

  lemma OwnParams(q: Batch, states: array4<real>, g: nat, bits: nat, b: nat, blk: nat, h: nat, d: nat, n: nat)
    requires g > 0 && ShapedFor(q, states, g) && BatchParams(q, states, g, bits)
    requires b < states.Length0 && blk < NumBlocks(states.Length1, g) && h < states.Length2 &&
             d < states.Length3 / 2 && n < 2
    ensures Params(q.scales[b, blk, h, d, n], q.zeros[b, blk, h, d, n]) ==
            GroupParams(BlockChannel(states, b, blk, g, h, 2 * d + n), bits)
  {
  }

  lemma OwnByteAt(states: array4<real>, b: nat, blk: nat, i: nat, g: nat, h: nat, d: nat, bits: nat)
    requires g > 0 && blk < NumBlocks(states.Length1, g) && i < g
    requires b < states.Length0 && h < states.Length2 && d < states.Length3 / 2
    ensures var lo, hi := BlockChannel(states, b, blk, g, h, 2 * d), BlockChannel(states, b, blk, g, h, 2 * d + 1);
            var row := BlockStart(blk, g) + i;
            OwnByte(states, b, blk, i, g, h, d, bits) ==
            if row >= states.Length1 then 0
            else PackByte(Code(states[b, row, h, 2 * d], GroupParams(lo, bits), bits),
                          Code(states[b, row, h, 2 * d + 1], GroupParams(hi, bits), bits))
  {
    var lo, hi := BlockChannel(states, b, blk, g, h, 2 * d), BlockChannel(states, b, blk, g, h, 2 * d + 1);
    var row := BlockStart(blk, g) + i;
    ChannelAt(states, b, blk, g, h, 2 * d, i);
    ChannelAt(states, b, blk, g, h, 2 * d + 1, i);
    if row < states.Length1 {
      TwoChannelByteAt(lo, hi, i, bits, states[b, row, h, 2 * d], states[b, row, h, 2 * d + 1]);
    }
  }

  /** Every byte of a real row holds the nibbles that fit its two channels, each under its own
      stored scale and zero point, and every byte of padding is 0. */
  lemma BatchByteFits(q: Batch, states: array4<real>, g: nat, bits: nat, b: nat, blk: nat, i: nat, h: nat, d: nat)
    requires g > 0 && i < g && states.Length3 % 2 == 0
    requires ShapedFor(q, states, g) && BatchParams(q, states, g, bits) && BatchBytes(q, states, g, bits)
    requires b < q.codes.Length0 && blk < q.codes.Length1 && h < q.codes.Length3 && d < q.codes.Length4
    ensures BlockStart(blk, g) + i >= states.Length1 ==> q.codes[b, blk, i, h, d] == 0
    ensures var row, byte := BlockStart(blk, g) + i, q.codes[b, blk, i, h, d];
            row < states.Length1 ==>
              ByteFitsTwo(byte, states[b, row, h, 2 * d], q.scales[b, blk, h, d, 0], q.zeros[b, blk, h, d, 0],
                          states[b, row, h, 2 * d + 1], q.scales[b, blk, h, d, 1], q.zeros[b, blk, h, d, 1], bits)
  {
    var row := BlockStart(blk, g) + i;
    assert q.codes[b, blk, i, h, d] == OwnByte(states, b, blk, i, g, h, d, bits);
    OwnByteAt(states, b, blk, i, g, h, d, bits);
    OwnParams(q, states, g, bits, b, blk, h, d, 0);
    OwnParams(q, states, g, bits, b, blk, h, d, 1);
    if row < states.Length1 {
      PackedFits(q.codes[b, blk, i, h, d],
                 states[b, row, h, 2 * d], GroupParams(BlockChannel(states, b, blk, g, h, 2 * d), bits),
                 states[b, row, h, 2 * d + 1], GroupParams(BlockChannel(states, b, blk, g, h, 2 * d + 1), bits), bits);
    }
  }

  lemma TwoChannelByteAt(lo: seq<real>, hi: seq<real>, i: nat, bits: nat, x: real, y: real)
    requires |lo| == |hi| && i < |lo| && x == lo[i] && y == hi[i]
    ensures TwoChannelByte(lo, hi, i, bits) ==
            PackByte(Code(x, GroupParams(lo, bits), bits), Code(y, GroupParams(hi, bits), bits))
  {
  }

  /** q[0], for callers that pass a single document; an empty batch has no document 0. */
  method QuantizeBlock8(states: array4<real>, g: nat, bits: nat) returns (q: Document)
    requires g > 0 && states.Length3 % 2 == 0 && states.Length0 > 0
    ensures ShapedDocument(q, NumBlocks(states.Length1, g), g, states.Length2, states.Length3 / 2)
    ensures HoldsDocument(q, states, 0, g, bits)
    ensures forall blk, h, d, n | 0 <= blk < q.scales.Length0 && 0 <= h < q.scales.Length1 &&
                                  0 <= d < q.scales.Length2 && 0 <= n < 2 ::
              ScaleFits(q.scales[blk, h, d, n], q.zeros[blk, h, d, n],
                        BlockChannel(states, 0, blk, g, h, 2 * d + n), bits)
  {
    var batch := QuantizeBatched(states, g, bits);
    q := SliceDocument(batch, states, 0, g, bits);
    forall blk, h, d, n | 0 <= blk < q.scales.Length0 && 0 <= h < q.scales.Length1 && 0 <= d < q.scales.Length2 &&
                          0 <= n < 2
      ensures ScaleFits(q.scales[blk, h, d, n], q.zeros[blk, h, d, n],
                        BlockChannel(states, 0, blk, g, h, 2 * d + n), bits)
    {
      assert Params(q.scales[blk, h, d, n], q.zeros[blk, h, d, n]) ==
             GroupParams(BlockChannel(states, 0, blk, g, h, 2 * d + n), bits);
      GroupScaleFits(BlockChannel(states, 0, blk, g, h, 2 * d + n), bits);
    }
  }

  ghost predicate ShapedDocument(q: Document, blocks: nat, g: nat, heads: nat, pairs: nat) {
    && q.codes.Length0 == blocks && q.codes.Length1 == g && q.codes.Length2 == heads && q.codes.Length3 == pairs
    && q.scales.Length0 == blocks && q.scales.Length1 == heads && q.scales.Length2 == pairs && q.scales.Length3 == 2
    && q.zeros.Length0 == blocks && q.zeros.Length1 == heads && q.zeros.Length2 == pairs && q.zeros.Length3 == 2
  }

  ghost predicate HoldsDocument(q: Document, states: array4<real>, b: nat, g: nat, bits: nat)
    requires g > 0 && b < states.Length0
    requires ShapedDocument(q, NumBlocks(states.Length1, g), g, states.Length2, states.Length3 / 2)
    reads q.codes, q.scales, q.zeros, states
  {
    && (forall blk, h, d, n | 0 <= blk < q.scales.Length0 && 0 <= h < q.scales.Length1 && 0 <= d < q.scales.Length2 &&
                              0 <= n < 2 ::
          Params(q.scales[blk, h, d, n], q.zeros[blk, h, d, n]) ==
            GroupParams(BlockChannel(states, b, blk, g, h, 2 * d + n), bits))
    && (forall blk, i, h, d | 0 <= blk < q.codes.Length0 && 0 <= i < g && 0 <= h < q.codes.Length2 &&
                              0 <= d < q.codes.Length3 ::
          q.codes[blk, i, h, d] == OwnByte(states, b, blk, i, g, h, d, bits))
  }

  method SliceDocument(batch: Batch, states: array4<real>, b: nat, g: nat, bits: nat) returns (q: Document)
    requires g > 0 && b < states.Length0 && ShapedFor(batch, states, g)
    requires BatchParams(batch, states, g, bits) && BatchBytes(batch, states, g, bits)
    ensures ShapedDocument(q, NumBlocks(states.Length1, g), g, states.Length2, states.Length3 / 2)
    ensures HoldsDocument(q, states, b, g, bits)
  {
    var scales, zeros := SliceParams(batch, b);
    var codes := SliceCodes(batch, b);
    q := Document(codes, scales, zeros);
  }

  method SliceCodes(batch: Batch, b: nat) returns (codes: array4<nat>)
    requires b < batch.codes.Length0
    ensures codes.Length0 == batch.codes.Length1 && codes.Length1 == batch.codes.Length2
    ensures codes.Length2 == batch.codes.Length3 && codes.Length3 == batch.codes.Length4
    ensures forall blk, i, h, d | 0 <= blk < codes.Length0 && 0 <= i < codes.Length1 && 0 <= h < codes.Length2 &&
                                  0 <= d < codes.Length3 ::
              codes[blk, i, h, d] == batch.codes[b, blk, i, h, d]
  {
    codes := new nat[batch.codes.Length1, batch.codes.Length2, batch.codes.Length3, batch.codes.Length4];
    forall blk, i, h, d | 0 <= blk < codes.Length0 && 0 <= i < codes.Length1 && 0 <= h < codes.Length2 &&
                          0 <= d < codes.Length3 {
      codes[blk, i, h, d] := batch.codes[b, blk, i, h, d];
    }
  }

  method SliceParams(batch: Batch, b: nat) returns (scales: array4<real>, zeros: array4<int>)
    requires b < batch.scales.Length0 == batch.zeros.Length0
    requires batch.zeros.Length1 == batch.scales.Length1 && batch.zeros.Length2 == batch.scales.Length2
    requires batch.zeros.Length3 == batch.scales.Length3 && batch.zeros.Length4 == batch.scales.Length4
    ensures scales.Length0 == zeros.Length0 == batch.scales.Length1 &&
            scales.Length1 == zeros.Length1 == batch.scales.Length2
    ensures scales.Length2 == zeros.Length2 == batch.scales.Length3 &&
            scales.Length3 == zeros.Length3 == batch.scales.Length4
    ensures forall blk, h, d, n | 0 <= blk < scales.Length0 && 0 <= h < scales.Length1 && 0 <= d < scales.Length2 &&
                                  0 <= n < scales.Length3 ::
              && scales[blk, h, d, n] == batch.scales[b, blk, h, d, n]
              && zeros[blk, h, d, n] == batch.zeros[b, blk, h, d, n]
  {
    scales := new real[batch.scales.Length1, batch.scales.Length2, batch.scales.Length3, batch.scales.Length4];
    zeros := new int[batch.scales.Length1, batch.scales.Length2, batch.scales.Length3, batch.scales.Length4];
    forall blk, h, d, n | 0 <= blk < scales.Length0 && 0 <= h < scales.Length1 && 0 <= d < scales.Length2 &&
                          0 <= n < scales.Length3 {
      scales[blk, h, d, n] := batch.scales[b, blk, h, d, n];
    }
    forall blk, h, d, n | 0 <= blk < scales.Length0 && 0 <= h < scales.Length1 && 0 <= d < scales.Length2 &&
                          0 <= n < scales.Length3 {
      zeros[blk, h, d, n] := batch.zeros[b, blk, h, d, n];
    }
  }

  // ----- the batch equals its documents quantized one by one

  /** doc is the b-th document of states, alone. */
  ghost predicate IsDocument(doc: array4<real>, states: array4<real>, b: nat)
    requires b < states.Length0
    reads doc, states
  {
    && doc.Length0 == 1 && doc.Length1 == states.Length1
    && doc.Length2 == states.Length2 && doc.Length3 == states.Length3
    && forall t, h, c | 0 <= t < doc.Length1 && 0 <= h < doc.Length2 && 0 <= c < doc.Length3 ::
         doc[0, t, h, c] == states[b, t, h, c]
  }

  lemma SameChannel(doc: array4<real>, states: array4<real>, b: nat, blk: nat, g: nat, h: nat, c: nat)
    requires b < states.Length0 && IsDocument(doc, states, b)
    requires g > 0 && blk < NumBlocks(states.Length1, g) && h < states.Length2 && c < states.Length3
    ensures BlockChannel(doc, 0, blk, g, h, c) == BlockChannel(states, b, blk, g, h, c)
  {
  }

  lemma SameByte(doc: array4<real>, states: array4<real>, b: nat, blk: nat, i: nat, g: nat, h: nat, d: nat, bits: nat)
    requires b < states.Length0 && IsDocument(doc, states, b)
    requires g > 0 && blk < NumBlocks(states.Length1, g) && h < states.Length2 && 2 * d + 1 < states.Length3
    ensures OwnByte(doc, 0, blk, i, g, h, d, bits) == OwnByte(states, b, blk, i, g, h, d, bits)
  {
    SameChannel(doc, states, b, blk, g, h, 2 * d);
    SameChannel(doc, states, b, blk, g, h, 2 * d + 1);
    SameChannelsSameByte(doc, 0, states, b, blk, i, g, h, d, bits);
  }

  lemma SameChannelsSameByte(x: array4<real>, a: nat, y: array4<real>, b: nat, blk: nat, i: nat, g: nat, h: nat,
                             d: nat, bits: nat)
    requires g > 0 && x.Length1 == y.Length1 && blk < NumBlocks(y.Length1, g)
    requires a < x.Length0 && h < x.Length2 && 2 * d + 1 < x.Length3
    requires b < y.Length0 && h < y.Length2 && 2 * d + 1 < y.Length3
    requires BlockChannel(x, a, blk, g, h, 2 * d) == BlockChannel(y, b, blk, g, h, 2 * d)
    requires BlockChannel(x, a, blk, g, h, 2 * d + 1) == BlockChannel(y, b, blk, g, h, 2 * d + 1)
    ensures OwnByte(x, a, blk, i, g, h, d, bits) == OwnByte(y, b, blk, i, g, h, d, bits)
  {
  }

  /** Quantizing a whole batch equals stacking the quantizations of its documents, whatever
      the other documents hold: the bytes agree, and padded rows are 0 in both, ... */
  lemma BatchIsStack(q: Batch, states: array4<real>, one: Document, doc: array4<real>, b: nat, g: nat, bits: nat,
                     blk: nat, i: nat, h: nat, d: nat)
    requires g > 0 && b < states.Length0 && IsDocument(doc, states, b) && ShapedFor(q, states, g)
    requires BatchBytes(q, states, g, bits)
    requires ShapedDocument(one, NumBlocks(doc.Length1, g), g, doc.Length2, doc.Length3 / 2)
    requires HoldsDocument(one, doc, 0, g, bits)
    requires blk < one.codes.Length0 && i < g && h < doc.Length2 && d < doc.Length3 / 2
    ensures q.codes[b, blk, i, h, d] == one.codes[blk, i, h, d]
    ensures BlockStart(blk, g) + i >= states.Length1 ==> q.codes[b, blk, i, h, d] == 0
  {
    assert q.codes[b, blk, i, h, d] == OwnByte(states, b, blk, i, g, h, d, bits);
    assert one.codes[blk, i, h, d] == OwnByte(doc, 0, blk, i, g, h, d, bits);
    SameByte(doc, states, b, blk, i, g, h, d, bits);
  }

  /** ... and so do scales and zero points. */
  lemma BatchParamsAreStack(q: Batch, states: array4<real>, one: Document, doc: array4<real>, b: nat, g: nat, bits: nat,
                            blk: nat, h: nat, d: nat, n: nat)
    requires g > 0 && b < states.Length0 && IsDocument(doc, states, b) && ShapedFor(q, states, g)
    requires BatchParams(q, states, g, bits)
    requires ShapedDocument(one, NumBlocks(doc.Length1, g), g, doc.Length2, doc.Length3 / 2)
    requires HoldsDocument(one, doc, 0, g, bits)
    requires blk < one.codes.Length0 && h < doc.Length2 && d < doc.Length3 / 2 && n < 2
    ensures q.scales[b, blk, h, d, n] == one.scales[blk, h, d, n]
    ensures q.zeros[b, blk, h, d, n] == one.zeros[blk, h, d, n]
  {
    SameChannel(doc, states, b, blk, g, h, 2 * d + n);
    assert Params(q.scales[b, blk, h, d, n], q.zeros[b, blk, h, d, n]) ==
           GroupParams(BlockChannel(states, b, blk, g, h, 2 * d + n), bits);
    assert Params(one.scales[blk, h, d, n], one.zeros[blk, h, d, n]) ==
           GroupParams(BlockChannel(doc, 0, blk, g, h, 2 * d + n), bits);
  }

  // ----- dequantization

  /** What is stored at a place of a block for a channel. */
  function StoredPlace8(q: Document, blk: nat, i: nat, h: nat, c: nat): Stored
    requires ShapedDocument(q, q.codes.Length0, q.codes.Length1, q.codes.Length2, q.codes.Length3)
    requires blk < q.codes.Length0 && i < q.codes.Length1 && h < q.codes.Length2 && c < 2 * q.codes.Length3
    reads q.codes, q.scales, q.zeros
  {
    var d, n := c / 2, c % 2;
    Stored(StoredNibble(q.codes[blk, i, h, d], c), Params(q.scales[blk, h, d, n], q.zeros[blk, h, d, n]))
  }

  /** What is stored at the first n places of a block for a channel. */
  ghost function StoredColumn(q: Document, blk: nat, h: nat, c: nat, n: nat): (stored: seq<Stored>)
    requires ShapedDocument(q, q.codes.Length0, q.codes.Length1, q.codes.Length2, q.codes.Length3)
    requires blk < q.codes.Length0 && n <= q.codes.Length1 && h < q.codes.Length2 && c < 2 * q.codes.Length3
    reads q.codes, q.scales, q.zeros
    ensures |stored| == n && forall i :: 0 <= i < n ==> stored[i] == StoredPlace8(q, blk, i, h, c)
  {
    seq(n, i requires 0 <= i < n reads q.codes, q.scales, q.zeros => StoredPlace8(q, blk, i, h, c))
  }

  function RestoredEntry8(q: Document, row: nat, g: nat, h: nat, c: nat): real
    requires g > 0 && ShapedDocument(q, q.codes.Length0, g, q.codes.Length2, q.codes.Length3)
    requires BlockOf(row, g) < q.codes.Length0 && h < q.codes.Length2 && c < 2 * q.codes.Length3
    reads q.codes, q.scales, q.zeros
  {
    var e := StoredPlace8(q, BlockOf(row, g), PlaceOf(row, g), h, c);
    Restore(e.nibble, e.p)
  }

  /** One byte restored: at its row, channel 2d is what the low nibble stands for and channel
      2d + 1 what the high nibble stands for. */
  ghost predicate ByteRestored8(body: array4<real>, q: Document, g: nat, blk: nat, i: nat, h: nat, d: nat)
    requires ShapedDocument(q, q.codes.Length0, g, q.codes.Length2, q.codes.Length3)
    requires body.Length0 == 1 && body.Length2 == q.codes.Length2 && body.Length3 == 2 * q.codes.Length3
    requires blk < q.codes.Length0 && i < g && h < q.codes.Length2 && d < q.codes.Length3
    reads body, q.codes, q.scales, q.zeros
  {
    var row, byte := BlockStart(blk, g) + i, q.codes[blk, i, h, d];
    && row < body.Length1
    && body[0, row, h, 2 * d] == (LowNibble(byte) as real - q.zeros[blk, h, d, 0] as real) * q.scales[blk, h, d, 0]
    && body[0, row, h, 2 * d + 1] == (HighNibble(byte) as real - q.zeros[blk, h, d, 1] as real) * q.scales[blk, h, d, 1]
  }

  ghost predicate AllRestored8(body: array4<real>, q: Document, g: nat)
    requires g > 0 && ShapedDocument(q, q.codes.Length0, g, q.codes.Length2, q.codes.Length3)
    reads body, q.codes, q.scales, q.zeros
  {
    && body.Length0 == 1 && body.Length1 == BlockStart(q.codes.Length0, g)
    && body.Length2 == q.codes.Length2 && body.Length3 == 2 * q.codes.Length3
    && forall blk, i, h, d | 0 <= blk < q.codes.Length0 && 0 <= i < g && 0 <= h < q.codes.Length2 &&
                             0 <= d < q.codes.Length3 ::
         ByteRestored8(body, q, g, blk, i, h, d)
  }

  /** _dequantize_block of V8: each nibble is restored under its own parameters. */
  method DequantizeBlock8(q: Document, g: nat) returns (body: array4<real>)
    requires g > 0 && ShapedDocument(q, q.codes.Length0, g, q.codes.Length2, q.codes.Length3)
    ensures AllRestored8(body, q, g)
  {
    var lo := RestoreLow8(q, g);
    var hi := RestoreHigh8(q, g);
    body := LayOut(lo, hi);
    forall blk, i, h, d | 0 <= blk < q.codes.Length0 && 0 <= i < g && 0 <= h < q.codes.Length2 &&
                          0 <= d < q.codes.Length3
      ensures ByteRestored8(body, q, g, blk, i, h, d)
    {
      assert lo[blk, i, h, d] ==
             (LowNibble(q.codes[blk, i, h, d]) as real - q.zeros[blk, h, d, 0] as real) * q.scales[blk, h, d, 0];
      assert hi[blk, i, h, d] ==
             (HighNibble(q.codes[blk, i, h, d]) as real - q.zeros[blk, h, d, 1] as real) * q.scales[blk, h, d, 1];
    }
  }

  /** The low nibbles, restored. */
  method RestoreLow8(q: Document, g: nat) returns (grid: array4<real>)
    requires g > 0 && ShapedDocument(q, q.codes.Length0, g, q.codes.Length2, q.codes.Length3)
    ensures fresh(grid) && grid.Length0 == q.codes.Length0 && grid.Length1 == g
    ensures grid.Length2 == q.codes.Length2 && grid.Length3 == q.codes.Length3
    ensures forall blk, i, h, d | 0 <= blk < grid.Length0 && 0 <= i < g && 0 <= h < grid.Length2 &&
                                  0 <= d < grid.Length3 ::
              grid[blk, i, h, d] ==
              (LowNibble(q.codes[blk, i, h, d]) as real - q.zeros[blk, h, d, 0] as real) * q.scales[blk, h, d, 0]
  {
    grid := new real[q.codes.Length0, g, q.codes.Length2, q.codes.Length3];
    forall blk, i, h, d | 0 <= blk < grid.Length0 && 0 <= i < g && 0 <= h < grid.Length2 && 0 <= d < grid.Length3 {
      grid[blk, i, h, d] := Restore(LowNibble(q.codes[blk, i, h, d]),
                                    Params(q.scales[blk, h, d, 0], q.zeros[blk, h, d, 0]));
    }
  }

  /** The high nibbles, restored. */
  method RestoreHigh8(q: Document, g: nat) returns (grid: array4<real>)
    requires g > 0 && ShapedDocument(q, q.codes.Length0, g, q.codes.Length2, q.codes.Length3)
    ensures fresh(grid) && grid.Length0 == q.codes.Length0 && grid.Length1 == g
    ensures grid.Length2 == q.codes.Length2 && grid.Length3 == q.codes.Length3
    ensures forall blk, i, h, d | 0 <= blk < grid.Length0 && 0 <= i < g && 0 <= h < grid.Length2 &&
                                  0 <= d < grid.Length3 ::
              grid[blk, i, h, d] ==
              (HighNibble(q.codes[blk, i, h, d]) as real - q.zeros[blk, h, d, 1] as real) * q.scales[blk, h, d, 1]
  {
    grid := new real[q.codes.Length0, g, q.codes.Length2, q.codes.Length3];
    forall blk, i, h, d | 0 <= blk < grid.Length0 && 0 <= i < g && 0 <= h < grid.Length2 && 0 <= d < grid.Length3 {
      grid[blk, i, h, d] := Restore(HighNibble(q.codes[blk, i, h, d]),
                                    Params(q.scales[blk, h, d, 1], q.zeros[blk, h, d, 1]));
    }
  }

  /** Read by row: row t comes from block t / g, and its channel c from the nibble that coded it. */
  lemma RestoredRows8(body: array4<real>, q: Document, g: nat)
    requires g > 0 && ShapedDocument(q, q.codes.Length0, g, q.codes.Length2, q.codes.Length3) &&
             AllRestored8(body, q, g)
    ensures forall row: nat :: row < body.Length1 ==> BlockOf(row, g) < q.codes.Length0
    ensures forall row, h, c | 0 <= row < body.Length1 && 0 <= h < body.Length2 && 0 <= c < body.Length3 ::
              body[0, row, h, c] == RestoredEntry8(q, row, g, h, c)
  {
    forall row: nat ensures row < body.Length1 ==> BlockOf(row, g) < q.codes.Length0 {
      RowHasBlock(row, g, q.codes.Length0);
    }
    forall row, h, c | 0 <= row < body.Length1 && 0 <= h < body.Length2 && 0 <= c < body.Length3
      ensures body[0, row, h, c] == RestoredEntry8(q, row, g, h, c)
    {
      RowOfBlock(row, g);
      RestoredAt8(body, q, g, BlockOf(row, g), PlaceOf(row, g), h, c);
    }
  }

  lemma RestoredAt8(body: array4<real>, q: Document, g: nat, blk: nat, i: nat, h: nat, c: nat)
    requires g > 0 && ShapedDocument(q, q.codes.Length0, g, q.codes.Length2, q.codes.Length3) &&
             AllRestored8(body, q, g)
    requires blk < q.codes.Length0 && i < g && h < q.codes.Length2 && c < 2 * q.codes.Length3
    ensures BlockStart(blk, g) + i < body.Length1
    ensures var d, n := c / 2, c % 2;
            body[0, BlockStart(blk, g) + i, h, c] ==
            Restore(StoredNibble(q.codes[blk, i, h, d], c), Params(q.scales[blk, h, d, n], q.zeros[blk, h, d, n]))
  {
    var d := c / 2;
    assert ByteRestored8(body, q, g, blk, i, h, d);
    if c % 2 == 0 {
      assert c == 2 * d;
    } else {
      assert c == 2 * d + 1;
    }
  }

  lemma ParamsAt(q: Document, states: array4<real>, b: nat, g: nat, bits: nat, blk: nat, h: nat, c: nat)
    requires g > 0 && b < states.Length0 && states.Length3 % 2 == 0
    requires ShapedDocument(q, NumBlocks(states.Length1, g), g, states.Length2, states.Length3 / 2)
    requires HoldsDocument(q, states, b, g, bits)
    requires blk < NumBlocks(states.Length1, g) && h < states.Length2 && c < states.Length3
    ensures Params(q.scales[blk, h, c / 2, c % 2], q.zeros[blk, h, c / 2, c % 2]) ==
            GroupParams(BlockChannel(states, b, blk, g, h, c), bits)
  {
    assert 2 * (c / 2) + c % 2 == c;
  }

  /** What is read back for a real row and channel is exactly what was coded for it, with
      the scale and zero point of its own block and channel. */
  lemma ReadBackIsCoded8(q: Document, states: array4<real>, b: nat, g: nat, bits: nat, blk: nat, i: nat, h: nat, c: nat)
    requires g > 0 && b < states.Length0 && states.Length3 % 2 == 0
    requires ShapedDocument(q, NumBlocks(states.Length1, g), g, states.Length2, states.Length3 / 2)
    requires HoldsDocument(q, states, b, g, bits)
    requires blk < NumBlocks(states.Length1, g) && h < states.Length2 && c < states.Length3
    requires i < |BlockChannel(states, b, blk, g, h, c)|
    ensures StoredPlace8(q, blk, i, h, c) == StoredFor(BlockChannel(states, b, blk, g, h, c), i, bits)
  {
    ParamsAt(q, states, b, g, bits, blk, h, c);
    NibbleAt(q, states, b, g, bits, blk, i, h, c);
  }

  lemma NibbleAt(q: Document, states: array4<real>, b: nat, g: nat, bits: nat, blk: nat, i: nat, h: nat, c: nat)
    requires g > 0 && b < states.Length0 && states.Length3 % 2 == 0
    requires ShapedDocument(q, NumBlocks(states.Length1, g), g, states.Length2, states.Length3 / 2)
    requires HoldsDocument(q, states, b, g, bits)
    requires blk < NumBlocks(states.Length1, g) && h < states.Length2 && c < states.Length3
    requires i < g && i < |BlockChannel(states, b, blk, g, h, c)|
    ensures StoredNibble(q.codes[blk, i, h, c / 2], c) ==
            StoredFor(BlockChannel(states, b, blk, g, h, c), i, bits).nibble
  {
    var d := c / 2;
    var lo, hi := BlockChannel(states, b, blk, g, h, 2 * d), BlockChannel(states, b, blk, g, h, 2 * d + 1);
    ByteAt(q, states, b, g, bits, blk, i, h, d);
    UnpackTwo(lo, i, hi, i, bits);
    if c % 2 == 0 {
      assert c == 2 * d;
    } else {
      assert c == 2 * d + 1;
    }
  }

  lemma ByteAt(q: Document, states: array4<real>, b: nat, g: nat, bits: nat, blk: nat, i: nat, h: nat, d: nat)
    requires g > 0 && b < states.Length0 && states.Length3 % 2 == 0
    requires ShapedDocument(q, NumBlocks(states.Length1, g), g, states.Length2, states.Length3 / 2)
    requires HoldsDocument(q, states, b, g, bits)
    requires blk < NumBlocks(states.Length1, g) && i < g && h < states.Length2 && d < states.Length3 / 2
    ensures var lo, hi := BlockChannel(states, b, blk, g, h, 2 * d), BlockChannel(states, b, blk, g, h, 2 * d + 1);
            q.codes[blk, i, h, d] == TwoChannelByte(lo, hi, i, bits)
  {
    assert q.codes[blk, i, h, d] == OwnByte(states, b, blk, i, g, h, d, bits);
  }

  /** A channel comes back within half its own scale on every real row of a block. */
  ghost predicate ChannelComesBack(q: Document, states: array4<real>, b: nat, blk: nat, g: nat, h: nat, c: nat)
    requires g > 0 && b < states.Length0 && blk < NumBlocks(states.Length1, g) && states.Length3 % 2 == 0
    requires ShapedDocument(q, NumBlocks(states.Length1, g), g, states.Length2, states.Length3 / 2)
    requires h < states.Length2 && c < states.Length3
    reads q.codes, q.scales, q.zeros, states
  {
    var rows := BlockChannel(states, b, blk, g, h, c);
    AllHalfScaleOff(StoredColumn(q, blk, h, c, |rows|), rows)
  }

  /** A channel comes back within half its own scale exactly when the width is 4 or the
      channel is flat on the block. */
  lemma ChannelComesBackIff(q: Document, states: array4<real>, b: nat, blk: nat, g: nat, h: nat, c: nat, bits: nat)
    requires g > 0 && b < states.Length0 && states.Length3 % 2 == 0
    requires ShapedDocument(q, NumBlocks(states.Length1, g), g, states.Length2, states.Length3 / 2)
    requires HoldsDocument(q, states, b, g, bits)
    requires blk < NumBlocks(states.Length1, g) && h < states.Length2 && c < states.Length3
    ensures var rows := BlockChannel(states, b, blk, g, h, c);
            ChannelComesBack(q, states, b, blk, g, h, c) <==> bits == 4 || MinOf(rows) == MaxOf(rows)
  {
    var rows := BlockChannel(states, b, blk, g, h, c);
    var stored, coded := StoredColumn(q, blk, h, c, |rows|), Coded(rows, bits);
    forall i | 0 <= i < |rows| ensures stored[i] == coded[i] {
      ReadBackIsCoded8(q, states, b, g, bits, blk, i, h, c);
    }
    assert stored == coded;
    GroupRestoredIff(rows, bits);
  }

  /** The dequantized tensor holds x within a tolerance at a place of a block. */
  ghost predicate PlaceWithin(body: array4<real>, blk: nat, i: nat, g: nat, h: nat, c: nat, x: real, tolerance: real)
    requires body.Length0 == 1 && h < body.Length2 && c < body.Length3
    reads body
  {
    var row := BlockStart(blk, g) + i;
    row < body.Length1 && Within(body[0, row, h, c], x, tolerance)
  }

  /** ... on every real row of a channel of a block. */
  ghost predicate ChannelWithin(body: array4<real>, states: array4<real>, b: nat, blk: nat, g: nat, h: nat, c: nat,
                                tolerance: real)
    requires g > 0 && b < states.Length0 && blk < NumBlocks(states.Length1, g)
    requires body.Length0 == 1 && body.Length2 == states.Length2 && body.Length3 == states.Length3
    requires h < states.Length2 && c < states.Length3
    reads body, states
  {
    var rows := BlockChannel(states, b, blk, g, h, c);
    forall i | 0 <= i < |rows| :: PlaceWithin(body, blk, i, g, h, c, rows[i], tolerance)
  }

  /** A channel comes back within half its own scale on every real row of a block. */
  ghost predicate ChannelReadBack(body: array4<real>, q: Document, states: array4<real>, b: nat, blk: nat, g: nat,
                                  h: nat, c: nat)
    requires g > 0 && b < states.Length0 && blk < NumBlocks(states.Length1, g) && states.Length3 % 2 == 0
    requires ShapedDocument(q, NumBlocks(states.Length1, g), g, states.Length2, states.Length3 / 2)
    requires AllRestored8(body, q, g) && h < states.Length2 && c < states.Length3
    reads body, q.codes, q.scales, q.zeros, states
  {
    ChannelWithin(body, states, b, blk, g, h, c, q.scales[blk, h, c / 2, c % 2] * 0.5)
  }

  /** Quantizing and dequantizing gives a channel back within half its own scale exactly when
      the width is 4 or the channel is flat on the block. */
  lemma ChannelReadBackIff(body: array4<real>, q: Document, states: array4<real>, b: nat, blk: nat, g: nat, h: nat,
                           c: nat, bits: nat)
    requires g > 0 && b < states.Length0 && states.Length3 % 2 == 0
    requires ShapedDocument(q, NumBlocks(states.Length1, g), g, states.Length2, states.Length3 / 2)
    requires HoldsDocument(q, states, b, g, bits) && AllRestored8(body, q, g)
    requires blk < NumBlocks(states.Length1, g) && h < states.Length2 && c < states.Length3
    ensures var rows := BlockChannel(states, b, blk, g, h, c);
            ChannelReadBack(body, q, states, b, blk, g, h, c) <==> bits == 4 || MinOf(rows) == MaxOf(rows)
  {
    ReadBackIsStored8(body, q, states, b, blk, g, h, c);
    ChannelComesBackIff(q, states, b, blk, g, h, c, bits);
  }

  /** In units of the values themselves: at width 4, or if the channel is flat, every real row of
      a channel on a block comes back within a thirtieth of its range, or a half. */
  lemma ChannelErrorBound(body: array4<real>, q: Document, states: array4<real>, b: nat, blk: nat, g: nat, h: nat,
                          c: nat, bits: nat)
    requires g > 0 && b < states.Length0 && states.Length3 % 2 == 0
    requires ShapedDocument(q, NumBlocks(states.Length1, g), g, states.Length2, states.Length3 / 2)
    requires HoldsDocument(q, states, b, g, bits) && AllRestored8(body, q, g)
    requires blk < NumBlocks(states.Length1, g) && h < states.Length2 && c < states.Length3
    requires var rows := BlockChannel(states, b, blk, g, h, c); bits == 4 || MinOf(rows) == MaxOf(rows)
    ensures ChannelWithin(body, states, b, blk, g, h, c, Tolerance(BlockChannel(states, b, blk, g, h, c)))
  {
    ChannelReadBackIff(body, q, states, b, blk, g, h, c, bits);
    ParamsAt(q, states, b, g, bits, blk, h, c);
    HalfScaleIsTolerance(BlockChannel(states, b, blk, g, h, c), bits);
  }

  lemma ReadBackIsStored8(body: array4<real>, q: Document, states: array4<real>, b: nat, blk: nat, g: nat, h: nat,
                          c: nat)
    requires g > 0 && b < states.Length0 && blk < NumBlocks(states.Length1, g) && states.Length3 % 2 == 0
    requires ShapedDocument(q, NumBlocks(states.Length1, g), g, states.Length2, states.Length3 / 2)
    requires AllRestored8(body, q, g) && h < states.Length2 && c < states.Length3
    ensures ChannelReadBack(body, q, states, b, blk, g, h, c) <==> ChannelComesBack(q, states, b, blk, g, h, c)
  {
    var rows := BlockChannel(states, b, blk, g, h, c);
    var stored := StoredColumn(q, blk, h, c, |rows|);
    forall i | 0 <= i < |rows|
      ensures HalfScaleOff(stored[i], rows[i]) <==>
              PlaceWithin(body, blk, i, g, h, c, rows[i], q.scales[blk, h, c / 2, c % 2] * 0.5)
    {
      RestoredAt8(body, q, g, blk, i, h, c);
    }
  }

  /** On the same block, the own scale of a channel is at most the scale its pair shares
      exactly when the channel is not flat, or the pair is flat or wide. */
  lemma OwnScaleAgainstPair(states: array4<real>, b: nat, blk: nat, g: nat, h: nat, c: nat, bits: nat)
    requires g > 0 && blk < NumBlocks(states.Length1, g)
    requires b < states.Length0 && h < states.Length2 && c < states.Length3 && states.Length3 % 2 == 0
    ensures var own, d := BlockChannel(states, b, blk, g, h, c), c / 2;
            var pair := BlockChannel(states, b, blk, g, h, 2 * d) + BlockChannel(states, b, blk, g, h, 2 * d + 1);
            var width := MaxOf(pair) - MinOf(pair);
            GroupParams(own, bits).scale <= GroupParams(pair, bits).scale <==>
            MinOf(own) != MaxOf(own) || width == 0.0 || width >= MaxRange(bits) as real
  {
    var d := c / 2;
    var lo, hi := BlockChannel(states, b, blk, g, h, 2 * d), BlockChannel(states, b, blk, g, h, 2 * d + 1);
    assert c == 2 * d || c == 2 * d + 1;
    OwnScaleAtMostJoint(BlockChannel(states, b, blk, g, h, c), lo + hi, bits);
  }
}
