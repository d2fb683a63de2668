/** The pre-RoPE INT4 quantizer with one scale per channel pair
    (apohara_context_forge/quantization/rotate_kv.py), with use_fwht off. Tensors are
    arrays of exact reals; casts to float16 and float32 are the identity. */
module RotateKV {
  import opened Int4
  import opened Blocks
  import opened Wrappers
  import opened Padding
  import opened Grids

  datatype Config = Config(bits: nat, groupSize: nat, sinkTokens: nat)

  /** The values of channels 2d and 2d + 1 of a block, which share scale and zero point. */
  function Pair(states: array4<real>, b: nat, blk: nat, g: nat, h: nat, d: nat): (values: seq<real>)
    requires g > 0 && blk < NumBlocks(states.Length1, g)
    requires b < states.Length0 && h < states.Length2 && 2 * d + 1 < states.Length3
    reads states
    ensures values != []
  {
    BlockChannel(states, b, blk, g, h, 2 * d) + BlockChannel(states, b, blk, g, h, 2 * d + 1)
  }

  /** The byte that holds place i of a block: two codes for a real row, 0 for padding. */
  function PairByte(states: array4<real>, b: nat, blk: nat, i: nat, g: nat, h: nat, d: nat, bits: nat): nat
    requires g > 0 && blk < NumBlocks(states.Length1, g)
    requires b < states.Length0 && h < states.Length2 && 2 * d + 1 < states.Length3
    reads states
  {
    var pair := Pair(states, b, blk, g, h, d);
    var n := |BlockChannel(states, b, blk, g, h, 2 * d)|;
    if i >= n then 0 else PackTwo(pair, i, pair, n + i, bits)
  }

  datatype Packed = Packed(codes: array4<nat>, scales: array3<real>, zeros: array3<int>)

  ghost predicate Shaped(q: Packed, blocks: nat, g: nat, heads: nat, pairs: nat) {
    && q.codes.Length0 == blocks && q.codes.Length1 == g && q.codes.Length2 == heads && q.codes.Length3 == pairs
    && q.scales.Length0 == blocks && q.scales.Length1 == heads && q.scales.Length2 == pairs
    && q.zeros.Length0 == blocks && q.zeros.Length1 == heads && q.zeros.Length2 == pairs
  }

  ghost predicate HoldsParams(q: Packed, states: array4<real>, b: nat, g: nat, bits: nat)
    requires g > 0 && b < states.Length0
    requires Shaped(q, NumBlocks(states.Length1, g), g, states.Length2, states.Length3 / 2)
    reads q.scales, q.zeros, states
  {
    forall blk, h, d | 0 <= blk < q.scales.Length0 && 0 <= h < q.scales.Length1 && 0 <= d < q.scales.Length2 ::
      Params(q.scales[blk, h, d], q.zeros[blk, h, d]) == GroupParams(Pair(states, b, blk, g, h, d), bits)
  }

  ghost predicate HoldsBytes(q: Packed, states: array4<real>, b: nat, g: nat, bits: nat)
    requires g > 0 && b < states.Length0
    requires Shaped(q, NumBlocks(states.Length1, g), g, states.Length2, states.Length3 / 2)
    reads q.codes, states
  {
    forall blk, i, h, d | 0 <= blk < q.codes.Length0 && 0 <= i < g && 0 <= h < q.codes.Length2 &&
                          0 <= d < q.codes.Length3 ::
      q.codes[blk, i, h, d] == PairByte(states, b, blk, i, g, h, d, bits)
  }

  /** q holds the pair quantization of document b of states. */
  ghost predicate Quantizes(q: Packed, states: array4<real>, b: nat, g: nat, bits: nat)
    requires g > 0 && b < states.Length0
    reads q.codes, q.scales, q.zeros, states
  {
    && Shaped(q, NumBlocks(states.Length1, g), g, states.Length2, states.Length3 / 2)
    && HoldsParams(q, states, b, g, bits)
    && HoldsBytes(q, states, b, g, bits)
  }

  /** _quantize_block: the result has no batch axis and every document overwrites the one
      before, so the last document of the batch is what comes back. */
  method QuantizeBlock(states: array4<real>, g: nat, bits: nat) returns (q: Packed)
    requires g > 0 && states.Length3 % 2 == 0
    ensures Shaped(q, NumBlocks(states.Length1, g), g, states.Length2, states.Length3 / 2)
    ensures states.Length0 > 0 ==> Quantizes(q, states, states.Length0 - 1, g, bits)
    ensures states.Length0 > 0 ==> ScalesFit(q, states, states.Length0 - 1, g, bits)
  {
    var heads, pairs := states.Length2, states.Length3 / 2;
    var blocks := NumBlocks(states.Length1, g);
    var codes := new nat[blocks, g, heads, pairs]((_, _, _, _) => 0);
    var scales := new real[blocks, heads, pairs]((_, _, _) => 0.0);
    var zeros := new int[blocks, heads, pairs]((_, _, _) => 0);
    q := Packed(codes, scales, zeros);
    for b := 0 to states.Length0
      invariant b > 0 ==> Quantizes(q, states, b - 1, g, bits) && ScalesFit(q, states, b - 1, g, bits)
    {
      QuantizeDocument(q, states, b, g, bits);
    }
  }

  /** Every stored scale and zero point fits the real values of its block and pair. */
  ghost predicate ScalesFit(q: Packed, states: array4<real>, b: nat, g: nat, bits: nat)
    requires g > 0 && b < states.Length0
    requires Shaped(q, NumBlocks(states.Length1, g), g, states.Length2, states.Length3 / 2)
    reads q.scales, q.zeros, states
  {
    forall blk, h, d | 0 <= blk < q.scales.Length0 && 0 <= h < q.scales.Length1 && 0 <= d < q.scales.Length2 ::
      ScaleFits(q.scales[blk, h, d], q.zeros[blk, h, d], Pair(states, b, blk, g, h, d), bits)
  }

  lemma ParamsFit(q: Packed, states: array4<real>, b: nat, g: nat, bits: nat)
    requires g > 0 && b < states.Length0
    requires Shaped(q, NumBlocks(states.Length1, g), g, states.Length2, states.Length3 / 2)
    requires HoldsParams(q, states, b, g, bits)
    ensures ScalesFit(q, states, b, g, bits)
  {
    forall blk, h, d | 0 <= blk < q.scales.Length0 && 0 <= h < q.scales.Length1 && 0 <= d < q.scales.Length2
      ensures ScaleFits(q.scales[blk, h, d], q.zeros[blk, h, d], Pair(states, b, blk, g, h, d), bits)
    {
      assert Params(q.scales[blk, h, d], q.zeros[blk, h, d]) == GroupParams(Pair(states, b, blk, g, h, d), bits);
      GroupScaleFits(Pair(states, b, blk, g, h, d), bits);
    }
  }

  /** One pass of the loop over the batch: pads document b, calibrates on the masked buffer,
      codes every row of it and clears the padding. */
  method QuantizeDocument(q: Packed, states: array4<real>, b: nat, g: nat, bits: nat)
    requires g > 0 && b < states.Length0 && states.Length3 % 2 == 0
    requires Shaped(q, NumBlocks(states.Length1, g), g, states.Length2, states.Length3 / 2)
    modifies q.codes, q.scales, q.zeros
    ensures Quantizes(q, states, b, g, bits) && ScalesFit(q, states, b, g, bits)
  {
    var blocks := NumBlocks(states.Length1, g);
    var buf, mask := PadRows(states, b, 1, g);
    CalibratePairs(q, buf, mask, blocks, g, bits);
    CalibratedIsParams(q, buf, mask, states, b, g, bits);
    ParamsFit(q, states, b, g, bits);
    CodePairs(q, buf, mask, blocks, g, bits);
    CodedIsBytes(q, buf, mask, states, b, g, bits);
  }

  /** A buffer of one document and a result of its shape. */
  ghost predicate Buffered(q: Packed, buf: array4<real>, mask: array2<bool>, blocks: nat, g: nat) {
    && Blocked(buf, mask, blocks, g) && buf.Length0 == 1 && buf.Length3 % 2 == 0
    && Shaped(q, blocks, g, buf.Length2, buf.Length3 / 2)
  }

  /** The masked values of both channels of a pair, over which the reductions run jointly. */
  function PairColumn(buf: array4<real>, mask: array2<bool>, blk: nat, g: nat, h: nat, d: nat): seq<Option<real>>
    requires buf.Length0 == 1 && h < buf.Length2 && 2 * d + 1 < buf.Length3
    requires mask.Length0 == 1 && mask.Length1 == buf.Length1 && BlockStart(blk, g) + g <= buf.Length1
    reads buf, mask
  {
    Column(buf, mask, 0, blk, g, h, 2 * d) + Column(buf, mask, 0, blk, g, h, 2 * d + 1)
  }

  ghost predicate Calibrated(q: Packed, buf: array4<real>, mask: array2<bool>, blocks: nat, g: nat, bits: nat)
    requires g > 0 && Buffered(q, buf, mask, blocks, g)
    reads q.scales, q.zeros, buf, mask
  {
    forall blk, h, d | 0 <= blk < q.scales.Length0 && 0 <= h < q.scales.Length1 && 0 <= d < q.scales.Length2 ::
      && BlockStart(blk, g) + g <= buf.Length1
      && Params(q.scales[blk, h, d], q.zeros[blk, h, d]) == MaskedParams(PairColumn(buf, mask, blk, g, h, d), bits)
  }

  method CalibratePairs(q: Packed, buf: array4<real>, mask: array2<bool>, blocks: nat, g: nat, bits: nat)
    requires g > 0 && Buffered(q, buf, mask, blocks, g)
    modifies q.scales, q.zeros
    ensures Calibrated(q, buf, mask, blocks, g, bits)
  {
    BlocksFit(blocks, g);
    forall blk, h, d | 0 <= blk < q.scales.Length0 && 0 <= h < q.scales.Length1 && 0 <= d < q.scales.Length2 {
      q.scales[blk, h, d] := MaskedParams(PairColumn(buf, mask, blk, g, h, d), bits).scale;
    }
    forall blk, h, d | 0 <= blk < q.scales.Length0 && 0 <= h < q.scales.Length1 && 0 <= d < q.scales.Length2 {
      q.zeros[blk, h, d] := MaskedParams(PairColumn(buf, mask, blk, g, h, d), bits).zero;
    }
  }

  /** The byte of a row of the buffer, real or padding, under the stored parameters. */
  function RowByte(q: Packed, buf: array4<real>, blk: nat, i: nat, g: nat, h: nat, d: nat, bits: nat): nat
    requires buf.Length0 == 1 && BlockStart(blk, g) + i < buf.Length1 && h < buf.Length2 && 2 * d + 1 < buf.Length3
    requires blk < q.scales.Length0 == q.zeros.Length0 && h < q.scales.Length1 == q.zeros.Length1
    requires d < q.scales.Length2 == q.zeros.Length2 && q.scales[blk, h, d] >= 0.0
    reads q.scales, q.zeros, buf
  {
    var row, p := BlockStart(blk, g) + i, Params(q.scales[blk, h, d], q.zeros[blk, h, d]);
    PackByte(SafeCode(buf[0, row, h, 2 * d], p, bits), SafeCode(buf[0, row, h, 2 * d + 1], p, bits))
  }

  lemma NotNegative(q: Packed, buf: array4<real>, mask: array2<bool>, blocks: nat, g: nat, bits: nat)
    requires g > 0 && Buffered(q, buf, mask, blocks, g) && Calibrated(q, buf, mask, blocks, g, bits)
    ensures forall blk, h, d | 0 <= blk < q.scales.Length0 && 0 <= h < q.scales.Length1 && 0 <= d < q.scales.Length2 ::
              q.scales[blk, h, d] >= 0.0
  {
    forall blk, h, d | 0 <= blk < q.scales.Length0 && 0 <= h < q.scales.Length1 && 0 <= d < q.scales.Length2
      ensures q.scales[blk, h, d] >= 0.0
    {
      assert Params(q.scales[blk, h, d], q.zeros[blk, h, d]).scale >= 0.0;
    }
  }

  ghost predicate Masked(q: Packed, buf: array4<real>, mask: array2<bool>, blocks: nat, g: nat, bits: nat)
    requires g > 0 && Buffered(q, buf, mask, blocks, g) && Calibrated(q, buf, mask, blocks, g, bits)
    reads q.codes, q.scales, q.zeros, buf, mask
  {
    BlocksFit(blocks, g);
    NotNegative(q, buf, mask, blocks, g, bits);
    forall blk, i, h, d | 0 <= blk < q.codes.Length0 && 0 <= i < g && 0 <= h < q.codes.Length2 &&
                          0 <= d < q.codes.Length3 ::
      q.codes[blk, i, h, d] == if mask[0, BlockStart(blk, g) + i] then RowByte(q, buf, blk, i, g, h, d, bits) else 0
  }

  method CodePairs(q: Packed, buf: array4<real>, mask: array2<bool>, blocks: nat, g: nat, bits: nat)
    requires g > 0 && Buffered(q, buf, mask, blocks, g) && Calibrated(q, buf, mask, blocks, g, bits)
    modifies q.codes
    ensures Calibrated(q, buf, mask, blocks, g, bits) && Masked(q, buf, mask, blocks, g, bits)
  {
    BlocksFit(blocks, g);
    NotNegative(q, buf, mask, blocks, g, bits);
    forall blk, i, h, d | 0 <= blk < q.codes.Length0 && 0 <= i < g && 0 <= h < q.codes.Length2 &&
                          0 <= d < q.codes.Length3 {
      q.codes[blk, i, h, d] := RowByte(q, buf, blk, i, g, h, d, bits);
    }
    ClearPadding(q.codes, mask, g);
  }

  /** The bytes times the mask. */
  method ClearPadding(codes: array4<nat>, mask: array2<bool>, g: nat)
    requires mask.Length0 == 1 && g == codes.Length1
    requires forall blk: nat :: blk < codes.Length0 ==> BlockStart(blk, g) + g <= mask.Length1
    modifies codes
    ensures forall blk, i, h, d | 0 <= blk < codes.Length0 && 0 <= i < g && 0 <= h < codes.Length2 &&
                                  0 <= d < codes.Length3 ::
              codes[blk, i, h, d] == if mask[0, BlockStart(blk, g) + i] then old(codes[blk, i, h, d]) else 0
  {
    forall blk, i, h, d | 0 <= blk < codes.Length0 && 0 <= i < g && 0 <= h < codes.Length2 && 0 <= d < codes.Length3 {
      codes[blk, i, h, d] := if mask[0, BlockStart(blk, g) + i] then codes[blk, i, h, d] else 0;
    }
  }

  /** The joint masked reductions over the padded buffer are those of the document's own rows. */
  lemma CalibratedIsParams(q: Packed, buf: array4<real>, mask: array2<bool>, states: array4<real>, b: nat, g: nat,
                           bits: nat)
    requires g > 0 && b < states.Length0 && Padded(buf, mask, states, b, g) && states.Length3 % 2 == 0
    requires Buffered(q, buf, mask, NumBlocks(states.Length1, g), g)
    requires Calibrated(q, buf, mask, NumBlocks(states.Length1, g), g, bits)
    ensures HoldsParams(q, states, b, g, bits)
  {
    forall blk, h, d | 0 <= blk < q.scales.Length0 && 0 <= h < q.scales.Length1 && 0 <= d < q.scales.Length2
      ensures Params(q.scales[blk, h, d], q.zeros[blk, h, d]) == GroupParams(Pair(states, b, blk, g, h, d), bits)
    {
      JointParams(buf, mask, states, b, g, bits, blk, h, d);
    }
  }

  lemma JointParams(buf: array4<real>, mask: array2<bool>, states: array4<real>, b: nat, g: nat, bits: nat,
                    blk: nat, h: nat, d: nat)
    requires g > 0 && Padded(buf, mask, states, b, g) && buf.Length0 == 1
    requires blk < NumBlocks(states.Length1, g) && h < states.Length2 && 2 * d + 1 < states.Length3
    ensures BlockStart(blk, g) + g <= buf.Length1
    ensures MaskedParams(PairColumn(buf, mask, blk, g, h, d), bits) == GroupParams(Pair(states, b, blk, g, h, d), bits)
  {
    ColumnIsChannel(buf, mask, states, b, 0, blk, g, h, 2 * d);
    ColumnIsChannel(buf, mask, states, b, 0, blk, g, h, 2 * d + 1);
    MaskedJoint(Column(buf, mask, 0, blk, g, h, 2 * d), Column(buf, mask, 0, blk, g, h, 2 * d + 1),
                BlockChannel(states, b, blk, g, h, 2 * d), BlockChannel(states, b, blk, g, h, 2 * d + 1), bits);
  }

  /** Bytes coded from the buffer and cleared by the mask are those of the real rows, and 0. */
  lemma CodedIsBytes(q: Packed, buf: array4<real>, mask: array2<bool>, states: array4<real>, b: nat, g: nat, bits: nat)
    requires g > 0 && b < states.Length0 && Padded(buf, mask, states, b, g) && states.Length3 % 2 == 0
    requires Buffered(q, buf, mask, NumBlocks(states.Length1, g), g)
    requires Calibrated(q, buf, mask, NumBlocks(states.Length1, g), g, bits)
    requires Masked(q, buf, mask, NumBlocks(states.Length1, g), g, bits)
    requires HoldsParams(q, states, b, g, bits)
    ensures HoldsBytes(q, states, b, g, bits)
  {
    BlocksFit(NumBlocks(states.Length1, g), g);
    NotNegative(q, buf, mask, NumBlocks(states.Length1, g), g, bits);
    forall blk, i, h, d | 0 <= blk < q.codes.Length0 && 0 <= i < g && 0 <= h < q.codes.Length2 &&
                          0 <= d < q.codes.Length3
      ensures q.codes[blk, i, h, d] == PairByte(states, b, blk, i, g, h, d, bits)
    {
      if BlockStart(blk, g) + i < states.Length1 {
        RowByteIsPair(q, buf, states, b, g, bits, blk, i, h, d);
      } else {
        PairByteAt(states, b, blk, i, g, h, d, bits);
      }
    }
  }

  lemma RowByteIsPair(q: Packed, buf: array4<real>, states: array4<real>, b: nat, g: nat, bits: nat,
                      blk: nat, i: nat, h: nat, d: nat)
    requires g > 0 && i < g && blk < NumBlocks(states.Length1, g) && states.Length3 % 2 == 0
    requires Shaped(q, NumBlocks(states.Length1, g), g, states.Length2, states.Length3 / 2)
    requires b < states.Length0 && h < states.Length2 && d < states.Length3 / 2 &&
             BlockStart(blk, g) + i < states.Length1
    requires buf.Length0 == 1 && BlockStart(blk, g) + i < buf.Length1 && h < buf.Length2 && 2 * d + 1 < buf.Length3
    requires buf[0, BlockStart(blk, g) + i, h, 2 * d] == states[b, BlockStart(blk, g) + i, h, 2 * d]
    requires buf[0, BlockStart(blk, g) + i, h, 2 * d + 1] == states[b, BlockStart(blk, g) + i, h, 2 * d + 1]
    requires Params(q.scales[blk, h, d], q.zeros[blk, h, d]) == GroupParams(Pair(states, b, blk, g, h, d), bits)
    ensures q.scales[blk, h, d] > 0.0
    ensures PairByte(states, b, blk, i, g, h, d, bits) == RowByte(q, buf, blk, i, g, h, d, bits)
  {
    PairByteAt(states, b, blk, i, g, h, d, bits);
  }

  lemma PairByteAt(states: array4<real>, b: nat, blk: nat, i: nat, g: nat, h: nat, d: nat, bits: nat)
    requires g > 0 && blk < NumBlocks(states.Length1, g) && i < g
    requires b < states.Length0 && h < states.Length2 && d < states.Length3 / 2
    ensures var row, p := BlockStart(blk, g) + i, GroupParams(Pair(states, b, blk, g, h, d), bits);
            PairByte(states, b, blk, i, g, h, d, bits) ==
            if row >= states.Length1 then 0
            else PackByte(Code(states[b, row, h, 2 * d], p, bits), Code(states[b, row, h, 2 * d + 1], p, bits))
  {
    var row, pair := BlockStart(blk, g) + i, Pair(states, b, blk, g, h, d);
    var n := |BlockChannel(states, b, blk, g, h, 2 * d)|;
    ChannelAt(states, b, blk, g, h, 2 * d, i);
    ChannelAt(states, b, blk, g, h, 2 * d + 1, i);
    if row < states.Length1 {
      assert pair[i] == states[b, row, h, 2 * d] && pair[n + i] == states[b, row, h, 2 * d + 1];
      var p := GroupParams(pair, bits);
      PackTwoIs(pair, i, pair, n + i, bits, states[b, row, h, 2 * d], p, states[b, row, h, 2 * d + 1], p);
    }
  }

  /** Every byte of a real row holds the nibbles that fit its two channels under the stored
      scale and zero point, and every byte of padding is 0. */
  lemma ByteFits(q: Packed, states: array4<real>, b: nat, g: nat, bits: nat, blk: nat, i: nat, h: nat, d: nat)
    requires g > 0 && i < g && b < states.Length0 && states.Length3 % 2 == 0 && Quantizes(q, states, b, g, bits)
    requires blk < q.codes.Length0 && h < q.codes.Length2 && d < q.codes.Length3
    ensures BlockStart(blk, g) + i >= states.Length1 ==> q.codes[blk, i, h, d] == 0
    ensures var row, s, z := BlockStart(blk, g) + i, q.scales[blk, h, d], q.zeros[blk, h, d];
            row < states.Length1 ==>
            ByteFitsTwo(q.codes[blk, i, h, d], states[b, row, h, 2 * d], s, z, states[b, row, h, 2 * d + 1], s, z, bits)
  {
    var row, p := BlockStart(blk, g) + i, GroupParams(Pair(states, b, blk, g, h, d), bits);
    PairByteAt(states, b, blk, i, g, h, d, bits);
    assert q.codes[blk, i, h, d] == PairByte(states, b, blk, i, g, h, d, bits);
    var stored := Params(q.scales[blk, h, d], q.zeros[blk, h, d]);
    assert stored == p;
    if row < states.Length1 {
      PackedFits(q.codes[blk, i, h, d], states[b, row, h, 2 * d], stored, states[b, row, h, 2 * d + 1], stored, bits);
    }
  }

  // ----- dequantization

  /** What is stored for a row and channel of the flattened blocks. */
  function StoredAt(q: Packed, row: nat, g: nat, h: nat, c: nat): Stored
    requires g > 0 && Shaped(q, q.codes.Length0, g, q.codes.Length2, q.codes.Length3)
    requires BlockOf(row, g) < q.codes.Length0 && h < q.codes.Length2 && c < 2 * q.codes.Length3
    reads q.codes, q.scales, q.zeros
  {
    var blk, d := BlockOf(row, g), c / 2;
    Stored(StoredNibble(q.codes[blk, PlaceOf(row, g), h, d], c), Params(q.scales[blk, h, d], q.zeros[blk, h, d]))
  }

  /** What it restores to. */
  function RestoredEntry(q: Packed, row: nat, g: nat, h: nat, c: nat): real
    requires g > 0 && Shaped(q, q.codes.Length0, g, q.codes.Length2, q.codes.Length3)
    requires BlockOf(row, g) < q.codes.Length0 && h < q.codes.Length2 && c < 2 * q.codes.Length3
    reads q.codes, q.scales, q.zeros
  {
    Restore(StoredAt(q, row, g, h, c).nibble, StoredAt(q, row, g, h, c).p)
  }

  /** One byte restored: at its row, channel 2d is what the low nibble stands for and channel
      2d + 1 what the high nibble stands for. */
  ghost predicate ByteRestored(body: array4<real>, q: Packed, g: nat, blk: nat, i: nat, h: nat, d: nat)
    requires Shaped(q, q.codes.Length0, g, q.codes.Length2, q.codes.Length3)
    requires body.Length0 == 1 && body.Length2 == q.codes.Length2 && body.Length3 == 2 * q.codes.Length3
    requires blk < q.codes.Length0 && i < g && h < q.codes.Length2 && d < q.codes.Length3
    reads body, q.codes, q.scales, q.zeros
  {
    var row, byte := BlockStart(blk, g) + i, q.codes[blk, i, h, d];
    && row < body.Length1
    && body[0, row, h, 2 * d] == (LowNibble(byte) as real - q.zeros[blk, h, d] as real) * q.scales[blk, h, d]
    && body[0, row, h, 2 * d + 1] == (HighNibble(byte) as real - q.zeros[blk, h, d] as real) * q.scales[blk, h, d]
  }

  ghost predicate AllRestored(body: array4<real>, q: Packed, g: nat)
    requires g > 0 && Shaped(q, q.codes.Length0, g, q.codes.Length2, q.codes.Length3)
    reads body, q.codes, q.scales, q.zeros
  {
    && body.Length0 == 1 && body.Length1 == BlockStart(q.codes.Length0, g)
    && body.Length2 == q.codes.Length2 && body.Length3 == 2 * q.codes.Length3
    && forall blk, i, h, d | 0 <= blk < q.codes.Length0 && 0 <= i < g && 0 <= h < q.codes.Length2 &&
                             0 <= d < q.codes.Length3 ::
         ByteRestored(body, q, g, blk, i, h, d)
  }

  /** _dequantize_block: unpacks both nibbles, restores them under their shared parameters,
      interleaves the channels and lays the blocks end to end. */
  method DequantizeBlock(q: Packed, g: nat) returns (body: array4<real>)
    requires g > 0 && Shaped(q, q.codes.Length0, g, q.codes.Length2, q.codes.Length3)
    ensures AllRestored(body, q, g)
  {
    var lo := RestoreLow(q, g);
    var hi := RestoreHigh(q, g);
    body := LayOut(lo, hi);
    forall blk, i, h, d | 0 <= blk < q.codes.Length0 && 0 <= i < g && 0 <= h < q.codes.Length2 &&
                          0 <= d < q.codes.Length3
      ensures ByteRestored(body, q, g, blk, i, h, d)
    {
      assert lo[blk, i, h, d] ==
             (LowNibble(q.codes[blk, i, h, d]) as real - q.zeros[blk, h, d] as real) * q.scales[blk, h, d];
      assert hi[blk, i, h, d] ==
             (HighNibble(q.codes[blk, i, h, d]) as real - q.zeros[blk, h, d] as real) * q.scales[blk, h, d];
    }
  }

  /** The low nibbles, restored. */
  method RestoreLow(q: Packed, g: nat) returns (grid: array4<real>)
    requires g > 0 && Shaped(q, q.codes.Length0, g, q.codes.Length2, q.codes.Length3)
    ensures fresh(grid) && grid.Length0 == q.codes.Length0 && grid.Length1 == g
    ensures grid.Length2 == q.codes.Length2 && grid.Length3 == q.codes.Length3
    ensures forall blk, i, h, d | 0 <= blk < grid.Length0 && 0 <= i < g && 0 <= h < grid.Length2 &&
                                  0 <= d < grid.Length3 ::
              grid[blk, i, h, d] ==
              (LowNibble(q.codes[blk, i, h, d]) as real - q.zeros[blk, h, d] as real) * q.scales[blk, h, d]
  {
    grid := new real[q.codes.Length0, g, q.codes.Length2, q.codes.Length3];
    forall blk, i, h, d | 0 <= blk < grid.Length0 && 0 <= i < g && 0 <= h < grid.Length2 && 0 <= d < grid.Length3 {
      grid[blk, i, h, d] := Restore(LowNibble(q.codes[blk, i, h, d]), Params(q.scales[blk, h, d], q.zeros[blk, h, d]));
    }
  }

  /** The high nibbles, restored. */
  method RestoreHigh(q: Packed, g: nat) returns (grid: array4<real>)
    requires g > 0 && Shaped(q, q.codes.Length0, g, q.codes.Length2, q.codes.Length3)
    ensures fresh(grid) && grid.Length0 == q.codes.Length0 && grid.Length1 == g
    ensures grid.Length2 == q.codes.Length2 && grid.Length3 == q.codes.Length3
    ensures forall blk, i, h, d | 0 <= blk < grid.Length0 && 0 <= i < g && 0 <= h < grid.Length2 &&
                                  0 <= d < grid.Length3 ::
              grid[blk, i, h, d] ==
              (HighNibble(q.codes[blk, i, h, d]) as real - q.zeros[blk, h, d] as real) * q.scales[blk, h, d]
  {
    grid := new real[q.codes.Length0, g, q.codes.Length2, q.codes.Length3];
    forall blk, i, h, d | 0 <= blk < grid.Length0 && 0 <= i < g && 0 <= h < grid.Length2 && 0 <= d < grid.Length3 {
      grid[blk, i, h, d] := Restore(HighNibble(q.codes[blk, i, h, d]), Params(q.scales[blk, h, d], q.zeros[blk, h, d]));
    }
  }

  /** Read by row: row t comes from block t / g, and its channel c from the nibble that coded it. */
  lemma RestoredRows(body: array4<real>, q: Packed, g: nat)
    requires g > 0 && Shaped(q, q.codes.Length0, g, q.codes.Length2, q.codes.Length3) && AllRestored(body, q, g)
    ensures forall row: nat :: row < body.Length1 ==> BlockOf(row, g) < q.codes.Length0
    ensures forall row, h, c | 0 <= row < body.Length1 && 0 <= h < body.Length2 && 0 <= c < body.Length3 ::
              body[0, row, h, c] == RestoredEntry(q, row, g, h, c)
  {
    forall row: nat ensures row < body.Length1 ==> BlockOf(row, g) < q.codes.Length0 {
      RowHasBlock(row, g, q.codes.Length0);
    }
    forall row, h, c | 0 <= row < body.Length1 && 0 <= h < body.Length2 && 0 <= c < body.Length3
      ensures body[0, row, h, c] == RestoredEntry(q, row, g, h, c)
    {
      RowOfBlock(row, g);
      RestoredAt(body, q, g, BlockOf(row, g), PlaceOf(row, g), h, c);
    }
  }

  lemma RestoredAt(body: array4<real>, q: Packed, g: nat, blk: nat, i: nat, h: nat, c: nat)
    requires g > 0 && Shaped(q, q.codes.Length0, g, q.codes.Length2, q.codes.Length3) && AllRestored(body, q, g)
    requires blk < q.codes.Length0 && i < g && h < q.codes.Length2 && c < 2 * q.codes.Length3
    ensures BlockStart(blk, g) + i < body.Length1
    ensures var d := c / 2;
            body[0, BlockStart(blk, g) + i, h, c] ==
            Restore(StoredNibble(q.codes[blk, i, h, d], c), Params(q.scales[blk, h, d], q.zeros[blk, h, d]))
  {
    var d := c / 2;
    assert ByteRestored(body, q, g, blk, i, h, d);
    if c % 2 == 0 {
      assert c == 2 * d;
    } else {
      assert c == 2 * d + 1;
    }
  }

  /** Where a row and channel sit among the values of their pair on their block. */
  function PairIndex(states: array4<real>, b: nat, g: nat, row: nat, h: nat, c: nat): (j: nat)
    requires g > 0 && states.Length3 % 2 == 0
    requires b < states.Length0 && row < states.Length1 && h < states.Length2 && c < states.Length3
    reads states
    ensures BlockOf(row, g) < NumBlocks(states.Length1, g)
    ensures var pair := Pair(states, b, BlockOf(row, g), g, h, c / 2);
            j < |pair| && pair[j] == states[b, row, h, c]
  {
    RowOfBlock(row, g);
    NoBlockIsEmpty(states.Length1, g, BlockOf(row, g));
    var lo := BlockChannel(states, b, BlockOf(row, g), g, h, c / 2 * 2);
    assert c % 2 == 0 ==> c == c / 2 * 2;
    assert c % 2 == 1 ==> c == c / 2 * 2 + 1;
    (if c % 2 == 0 then 0 else |lo|) + PlaceOf(row, g)
  }

  /** What is read back for a real row and channel is exactly what was coded for it, with
      the scale and zero point of its own block and pair. */
  lemma ReadBackIsCoded(q: Packed, states: array4<real>, b: nat, g: nat, bits: nat, row: nat, h: nat, c: nat)
    requires g > 0 && b < states.Length0 && states.Length3 % 2 == 0 && Quantizes(q, states, b, g, bits)
    requires row < states.Length1 && h < states.Length2 && c < states.Length3
    ensures BlockOf(row, g) < NumBlocks(states.Length1, g)
    ensures var j := PairIndex(states, b, g, row, h, c);
            StoredAt(q, row, g, h, c) == StoredFor(Pair(states, b, BlockOf(row, g), g, h, c / 2), j, bits)
  {
    var blk, i, d := BlockOf(row, g), PlaceOf(row, g), c / 2;
    RowOfBlock(row, g);
    NoBlockIsEmpty(states.Length1, g, blk);
    var pair := Pair(states, b, blk, g, h, d);
    var n := |BlockChannel(states, b, blk, g, h, 2 * d)|;
    assert q.codes[blk, i, h, d] == PackTwo(pair, i, pair, n + i, bits);
    UnpackTwo(pair, i, pair, n + i, bits);
  }

  /** Both channels of a pair come back within half their scale on every real row of a block. */
  ghost predicate PairComesBack(q: Packed, states: array4<real>, b: nat, blk: nat, g: nat, h: nat, d: nat)
    requires g > 0 && b < states.Length0 && blk < NumBlocks(states.Length1, g)
    requires Shaped(q, NumBlocks(states.Length1, g), g, states.Length2, states.Length3 / 2)
    requires h < states.Length2 && d < states.Length3 / 2
    reads q.codes, q.scales, q.zeros, states
  {
    forall row: nat, c: nat | row < states.Length1 && BlockOf(row, g) == blk && c / 2 == d ::
      HalfScaleOff(StoredAt(q, row, g, h, c), states[b, row, h, c])
  }

  /** Every value of a pair on a block is some row of one of its two channels. */
  lemma IndexedRow(states: array4<real>, b: nat, blk: nat, g: nat, h: nat, d: nat, j: nat) returns (row: nat, c: nat)
    requires g > 0 && b < states.Length0 && blk < NumBlocks(states.Length1, g) && states.Length3 % 2 == 0
    requires h < states.Length2 && d < states.Length3 / 2 && j < |Pair(states, b, blk, g, h, d)|
    ensures row < states.Length1 && BlockOf(row, g) == blk && c / 2 == d && c < states.Length3
    ensures PairIndex(states, b, g, row, h, c) == j
  {
    var n := |BlockChannel(states, b, blk, g, h, 2 * d)|;
    NoBlockIsEmpty(states.Length1, g, blk);
    var i := if j < n then j else j - n;
    row, c := BlockStart(blk, g) + i, if j < n then 2 * d else 2 * d + 1;
    BlockOfRow(blk, i, g);
    assert c / 2 == d && c % 2 == if j < n then 0 else 1;
  }

  /** A channel pair comes back within half its scale exactly when the width is 4 or the
      pair is flat on the block. */
  lemma PairComesBackIff(q: Packed, states: array4<real>, b: nat, blk: nat, g: nat, h: nat, d: nat, bits: nat)
    requires g > 0 && b < states.Length0 && states.Length3 % 2 == 0 && Quantizes(q, states, b, g, bits)
    requires blk < NumBlocks(states.Length1, g) && h < states.Length2 && d < states.Length3 / 2
    ensures var pair := Pair(states, b, blk, g, h, d);
            PairComesBack(q, states, b, blk, g, h, d) <==> bits == 4 || MinOf(pair) == MaxOf(pair)
  {
    var pair := Pair(states, b, blk, g, h, d);
    GroupRestoredIff(pair, bits);
    if GroupRestored(pair, bits) {
      forall row: nat, c: nat | row < states.Length1 && BlockOf(row, g) == blk && c / 2 == d
        ensures HalfScaleOff(StoredAt(q, row, g, h, c), states[b, row, h, c])
      {
        ReadBackIsCoded(q, states, b, g, bits, row, h, c);
      }
    }
    if PairComesBack(q, states, b, blk, g, h, d) {
      forall j | 0 <= j < |pair| ensures HalfScaleOff(Coded(pair, bits)[j], pair[j]) {
        var row, c := IndexedRow(states, b, blk, g, h, d, j);
        ReadBackIsCoded(q, states, b, g, bits, row, h, c);
      }
    }
  }

  /** The same of the dequantized tensor itself. */
  ghost predicate PairReadBack(body: array4<real>, q: Packed, states: array4<real>, b: nat, blk: nat, g: nat,
                               h: nat, d: nat)
    requires g > 0 && b < states.Length0 && blk < NumBlocks(states.Length1, g) && states.Length3 % 2 == 0
    requires Shaped(q, NumBlocks(states.Length1, g), g, states.Length2, states.Length3 / 2) && AllRestored(body, q, g)
    requires h < states.Length2 && d < states.Length3 / 2
    reads body, q.codes, q.scales, q.zeros, states
  {
    PairWithin(body, states, b, blk, g, h, d, q.scales[blk, h, d] * 0.5)
  }

  /** Every real entry of a pair on a block is within a tolerance of its original. */
  ghost predicate PairWithin(body: array4<real>, states: array4<real>, b: nat, blk: nat, g: nat, h: nat, d: nat,
                             tolerance: real)
    requires g > 0 && b < states.Length0 && states.Length3 % 2 == 0 && h < states.Length2 && d < states.Length3 / 2
    requires body.Length0 == 1 && body.Length2 == states.Length2 && body.Length3 == states.Length3
    reads body, states
  {
    forall row: nat, c: nat | row < states.Length1 && BlockOf(row, g) == blk && c / 2 == d ::
      row < body.Length1 && Within(body[0, row, h, c], states[b, row, h, c], tolerance)
  }

  /** Quantizing and dequantizing gives a channel pair back within half its scale exactly when
      the width is 4 or the pair is flat on the block. */
  lemma PairReadBackIff(body: array4<real>, q: Packed, states: array4<real>, b: nat, blk: nat, g: nat, h: nat,
                        d: nat, bits: nat)
    requires g > 0 && b < states.Length0 && states.Length3 % 2 == 0 && Quantizes(q, states, b, g, bits)
    requires blk < NumBlocks(states.Length1, g) && h < states.Length2 && d < states.Length3 / 2
    requires AllRestored(body, q, g)
    ensures var pair := Pair(states, b, blk, g, h, d);
            PairReadBack(body, q, states, b, blk, g, h, d) <==> bits == 4 || MinOf(pair) == MaxOf(pair)
  {
    ReadBackIsStored(body, q, states, b, blk, g, h, d);
    PairComesBackIff(q, states, b, blk, g, h, d, bits);
  }

  /** In units of the values themselves: at width 4, or if the pair is flat, every real entry of
      a pair on a block comes back within a thirtieth of the range of the pair, or a half. */
  lemma PairErrorBound(body: array4<real>, q: Packed, states: array4<real>, b: nat, blk: nat, g: nat, h: nat,
                       d: nat, bits: nat)
    requires g > 0 && b < states.Length0 && states.Length3 % 2 == 0 && Quantizes(q, states, b, g, bits)
    requires blk < NumBlocks(states.Length1, g) && h < states.Length2 && d < states.Length3 / 2
    requires AllRestored(body, q, g)
    requires var pair := Pair(states, b, blk, g, h, d); bits == 4 || MinOf(pair) == MaxOf(pair)
    ensures PairWithin(body, states, b, blk, g, h, d, Tolerance(Pair(states, b, blk, g, h, d)))
  {
    PairReadBackIff(body, q, states, b, blk, g, h, d, bits);
    assert Params(q.scales[blk, h, d], q.zeros[blk, h, d]) == GroupParams(Pair(states, b, blk, g, h, d), bits);
    HalfScaleIsTolerance(Pair(states, b, blk, g, h, d), bits);
  }

  lemma ReadBackIsStored(body: array4<real>, q: Packed, states: array4<real>, b: nat, blk: nat, g: nat, h: nat, d: nat)
    requires g > 0 && b < states.Length0 && blk < NumBlocks(states.Length1, g) && states.Length3 % 2 == 0
    requires Shaped(q, NumBlocks(states.Length1, g), g, states.Length2, states.Length3 / 2) && AllRestored(body, q, g)
    requires h < states.Length2 && d < states.Length3 / 2
    ensures PairReadBack(body, q, states, b, blk, g, h, d) <==> PairComesBack(q, states, b, blk, g, h, d)
  {
    forall row: nat, c: nat | row < states.Length1 && BlockOf(row, g) == blk && c / 2 == d
      ensures row < body.Length1
      ensures body[0, row, h, c] == Restore(StoredAt(q, row, g, h, c).nibble, StoredAt(q, row, g, h, c).p)
    {
      RowOfBlock(row, g);
      RestoredAt(body, q, g, blk, PlaceOf(row, g), h, c);
    }
  }
}
