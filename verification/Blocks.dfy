/** Row bookkeeping of the block-wise quantizers: how `seq` rows are cut into blocks of
    `group_size` rows, the last one padded. */
module Blocks {
  import opened Arithmetic

  function NumBlocks(rows: nat, g: nat): nat
    requires g > 0
  {
    rows / g + if rows % g != 0 then 1 else 0
  }

  /** The first row of a block. */
  function BlockStart(blk: nat, g: nat): nat {
    if blk == 0 then 0 else BlockStart(blk - 1, g) + g
  }

  lemma {:induction false} BlockStartIsProduct(blk: nat, g: nat)
    ensures BlockStart(blk, g) == blk * g
  {
    if blk > 0 {
      BlockStartIsProduct(blk - 1, g);
      assert blk * g == (blk - 1) * g + g;
    }
  }

  /** The block a row falls into, and its place there. */
  function BlockOf(row: nat, g: nat): nat
    requires g > 0
  {
    if row < g then 0 else 1 + BlockOf(row - g, g)
  }

  function PlaceOf(row: nat, g: nat): (i: nat)
    requires g > 0
    ensures i < g
  {
    if row < g then row else PlaceOf(row - g, g)
  }

  lemma DivStep(a: nat, g: nat)
    requires a >= g > 0
    ensures a / g == (a - g) / g + 1 && a % g == (a - g) % g
  {
    var q, r := (a - g) / g, (a - g) % g;
    assert a == g * (q + 1) + r;
    DivisionIs(a, g, q + 1, r);
  }

  lemma {:induction false} BlockOfIsQuotient(row: nat, g: nat)
    requires g > 0
    ensures BlockOf(row, g) == row / g && PlaceOf(row, g) == row % g
  {
    if row >= g {
      DivStep(row, g);
      BlockOfIsQuotient(row - g, g);
    }
  }

  /** Cutting and flattening are inverse: block start plus place gives the row back. */
  lemma {:induction false} RowOfBlock(row: nat, g: nat)
    requires g > 0
    ensures BlockStart(BlockOf(row, g), g) + PlaceOf(row, g) == row
  {
    if row >= g {
      RowOfBlock(row - g, g);
    }
  }

  lemma {:induction false} BlockOfRow(blk: nat, i: nat, g: nat)
    requires i < g
    ensures BlockOf(BlockStart(blk, g) + i, g) == blk && PlaceOf(BlockStart(blk, g) + i, g) == i
  {
    if blk > 0 {
      BlockOfRow(blk - 1, i, g);
    }
  }

  /** n_blocks is the ceiling of rows / g, so a block below n_blocks holds at least one
      real row, and a row below the padded length falls into a block below n_blocks. */
  lemma {:induction false} NoBlockIsEmpty(rows: nat, g: nat, blk: nat)
    requires g > 0
    ensures blk < NumBlocks(rows, g) <==> BlockStart(blk, g) < rows
  {
    if rows == 0 {
      assert 0 / g == 0 && 0 % g == 0;
    } else if rows < g {
      assert rows / g == 0 && rows % g == rows;
      if blk > 0 {
        assert BlockStart(blk, g) >= g;
      }
    } else {
      DivStep(rows, g);
      if blk > 0 {
        NoBlockIsEmpty(rows - g, g, blk - 1);
      } else if rows % g == 0 {
        assert rows / g >= 1;
      }
    }
  }

  lemma {:induction false} RowHasBlock(row: nat, g: nat, n: nat)
    requires g > 0
    ensures row < BlockStart(n, g) <==> BlockOf(row, g) < n
  {
    if n > 0 && row >= g {
      RowHasBlock(row - g, g, n - 1);
    } else if n > 0 {
      assert BlockStart(n, g) >= g;
    }
  }
}
