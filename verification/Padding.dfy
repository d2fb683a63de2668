/** What both INT4 codecs do before and while they calibrate: rows are padded to whole blocks,
    a mask tells real rows from padding, and reductions see an infinity in masked places. */
module Padding {
  import opened Wrappers
  import opened Blocks
  import opened Int4

  function Min(a: nat, b: nat): nat { if a < b then a else b }

  /** The rows of one block that are real rows of channel c, without padding. */
  function BlockChannel(states: array4<real>, b: nat, blk: nat, g: nat, h: nat, c: nat): (rows: seq<real>)
    requires g > 0 && blk < NumBlocks(states.Length1, g)
    requires b < states.Length0 && h < states.Length2 && c < states.Length3
    reads states
    ensures rows != []
  {
    NoBlockIsEmpty(states.Length1, g, blk);
    var start := BlockStart(blk, g);
    seq(Min(g, states.Length1 - start),
      i requires 0 <= i < Min(g, states.Length1 - start) reads states => states[b, start + i, h, c])
  }

  lemma ChannelAt(states: array4<real>, b: nat, blk: nat, g: nat, h: nat, c: nat, i: nat)
    requires g > 0 && blk < NumBlocks(states.Length1, g) && i < g
    requires b < states.Length0 && h < states.Length2 && c < states.Length3
    ensures var rows, row := BlockChannel(states, b, blk, g, h, c), BlockStart(blk, g) + i;
            if row < states.Length1 then i < |rows| && rows[i] == states[b, row, h, c] else |rows| <= i
  {
  }

  // ----- the padded buffer

  /** The axes of a buffer and its mask: whole blocks of g rows. */
  ghost predicate Blocked(buf: array4<real>, mask: array2<bool>, blocks: nat, g: nat) {
    buf.Length1 == BlockStart(blocks, g) && mask.Length0 == buf.Length0 && mask.Length1 == buf.Length1
  }

  /** buf holds documents from, from + 1, ... of states, zero rows behind their own, and mask
      tells them apart. */
  ghost predicate Padded(buf: array4<real>, mask: array2<bool>, states: array4<real>, from: nat, g: nat)
    requires g > 0
    reads buf, mask, states
  {
    && Blocked(buf, mask, NumBlocks(states.Length1, g), g) && from + buf.Length0 <= states.Length0
    && buf.Length2 == states.Length2 && buf.Length3 == states.Length3
    && (forall b, row | 0 <= b < mask.Length0 && 0 <= row < mask.Length1 ::
          mask[b, row] <==> row < states.Length1)
    && (forall b, row, h, c | 0 <= b < buf.Length0 && 0 <= row < buf.Length1 && 0 <= h < buf.Length2 &&
                              0 <= c < buf.Length3 ::
          buf[b, row, h, c] == if row < states.Length1 then states[from + b, row, h, c] else 0.0)
  }

  method PadRows(states: array4<real>, from: nat, count: nat, g: nat) returns (buf: array4<real>, mask: array2<bool>)
    requires g > 0 && from + count <= states.Length0
    ensures fresh(buf) && fresh(mask) && buf.Length0 == count && Padded(buf, mask, states, from, g)
  {
    var seqLen, blocks := states.Length1, NumBlocks(states.Length1, g);
    var padded := BlockStart(blocks, g);
    NoBlockIsEmpty(seqLen, g, blocks);
    mask := new bool[count, padded]((_, _) => false);
    forall b, row | 0 <= b < count && 0 <= row < seqLen {
      mask[b, row] := true;
    }
    buf := new real[count, padded, states.Length2, states.Length3]((_, _, _, _) => 0.0);
    forall b, row, h, c | 0 <= b < count && 0 <= row < seqLen && 0 <= h < buf.Length2 && 0 <= c < buf.Length3 {
      buf[b, row, h, c] := states[from + b, row, h, c];
    }
  }

  lemma BlockFits(blk: nat, blocks: nat, g: nat)
    requires g > 0
    ensures blk < blocks ==> BlockStart(blk, g) + g <= BlockStart(blocks, g)
  {
    BlockOfRow(blk, g - 1, g);
    RowHasBlock(BlockStart(blk, g) + g - 1, g, blocks);
  }

  lemma BlocksFit(blocks: nat, g: nat)
    requires g > 0
    ensures forall blk: nat :: blk < blocks ==> BlockStart(blk, g) + g <= BlockStart(blocks, g)
  {
    forall blk: nat ensures blk < blocks ==> BlockStart(blk, g) + g <= BlockStart(blocks, g) {
      BlockFits(blk, blocks, g);
    }
  }

  // ----- masked reductions

  /** One channel of one block, np.where(valid, x, infinity): None stands for the infinity. */
  function Column(buf: array4<real>, mask: array2<bool>, b: nat, blk: nat, g: nat, h: nat,
                  c: nat): (xs: seq<Option<real>>)
    requires b < buf.Length0 && h < buf.Length2 && c < buf.Length3
    requires mask.Length0 == buf.Length0 && mask.Length1 == buf.Length1 && BlockStart(blk, g) + g <= buf.Length1
    reads buf, mask
    ensures |xs| == g
  {
    var start := BlockStart(blk, g);
    seq(g, i requires 0 <= i < g reads buf, mask =>
      if mask[b, start + i] then Some(buf[b, start + i, h, c]) else None)
  }

  function MaskedMin(xs: seq<Option<real>>): (m: Option<real>)
    ensures m.None? <==> forall i :: 0 <= i < |xs| ==> xs[i].None?
    ensures m.Some? ==> m in xs && forall x :: Some(x) in xs ==> m.value <= x
  {
    if xs == [] then None else
      var n := |xs| - 1;
      var m := MaskedMin(xs[..n]);
      assert xs == xs[..n] + [xs[n]];
      if m.None? || (xs[n].Some? && xs[n].value < m.value) then xs[n] else m
  }

  function MaskedMax(xs: seq<Option<real>>): (m: Option<real>)
    ensures m.None? <==> forall i :: 0 <= i < |xs| ==> xs[i].None?
    ensures m.Some? ==> m in xs && forall x :: Some(x) in xs ==> x <= m.value
  {
    if xs == [] then None else
      var n := |xs| - 1;
      var m := MaskedMax(xs[..n]);
      assert xs == xs[..n] + [xs[n]];
      if m.None? || (xs[n].Some? && xs[n].value > m.value) then xs[n] else m
  }

  /** Scale and zero point from the masked extremes; a group without a valid place gets 0, 0. */
  function MaskedParams(xs: seq<Option<real>>, bits: nat): (p: Params)
    ensures p.scale >= 0.0
  {
    var lo, hi := MaskedMin(xs), MaskedMax(xs);
    if lo.None? || hi.None? then Params(0.0, 0) else Calibrate(lo.value, hi.value, bits)
  }

  /** Over the places that are not masked, the reductions calibrate on exactly the real values. */
  lemma MaskedGroup(xs: seq<Option<real>>, values: seq<real>, bits: nat)
    requires values != [] && forall x :: Some(x) in xs <==> x in values
    ensures MaskedParams(xs, bits) == GroupParams(values, bits)
  {
    var lo, hi := MinOf(values), MaxOf(values);
    assert Some(lo) in xs && Some(hi) in xs;
    var m, n := MaskedMin(xs), MaskedMax(xs);
    assert m.Some? && n.Some?;
    assert m.value in values && n.value in values;
  }

  /** The same for two groups that are reduced together. */
  lemma MaskedJoint(xs: seq<Option<real>>, ys: seq<Option<real>>, us: seq<real>, vs: seq<real>, bits: nat)
    requires us != [] && (forall x :: Some(x) in xs <==> x in us) && (forall x :: Some(x) in ys <==> x in vs)
    ensures MaskedParams(xs + ys, bits) == GroupParams(us + vs, bits)
  {
    MaskedGroup(xs + ys, us + vs, bits);
  }

  /** What a column leaves unmasked is what the real rows of its channel hold: no padding, no
      other document. */
  lemma ColumnIsChannel(buf: array4<real>, mask: array2<bool>, states: array4<real>, from: nat, b: nat, blk: nat,
                        g: nat,
                        h: nat, c: nat)
    requires g > 0 && Padded(buf, mask, states, from, g) && blk < NumBlocks(states.Length1, g)
    requires b < buf.Length0 && h < buf.Length2 && c < buf.Length3
    ensures BlockStart(blk, g) + g <= buf.Length1
    ensures forall x :: Some(x) in Column(buf, mask, b, blk, g, h, c) <==>
            x in BlockChannel(states, from + b, blk, g, h, c)
  {
    BlockFits(blk, NumBlocks(states.Length1, g), g);
    var xs, rows := Column(buf, mask, b, blk, g, h, c), BlockChannel(states, from + b, blk, g, h, c);
    forall i | 0 <= i < g ensures xs[i] == if i < |rows| then Some(rows[i]) else None {
      NoBlockIsEmpty(states.Length1, g, blk);
    }
    forall x ensures Some(x) in xs <==> x in rows {
      if x in rows {
        var i :| 0 <= i < |rows| && rows[i] == x;
        assert xs[i] == Some(x);
      }
      if Some(x) in xs {
        var i :| 0 <= i < g && xs[i] == Some(x);
        assert rows[i] == x;
      }
    }
  }
}
