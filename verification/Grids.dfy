/** The reshapes of dequantization: joining the two nibble grids and laying blocks end to end. */
module Grids {
  import opened Blocks

  /** np.stack on a new last axis, then merging it: channel 2d from lo, channel 2d + 1 from hi. */
  method Interleave(lo: array4<real>, hi: array4<real>) returns (grid: array4<real>)
    requires lo.Length0 == hi.Length0 && lo.Length1 == hi.Length1
    requires lo.Length2 == hi.Length2 && lo.Length3 == hi.Length3
    ensures fresh(grid) && grid.Length0 == lo.Length0 && grid.Length1 == lo.Length1
    ensures grid.Length2 == lo.Length2 && grid.Length3 == 2 * lo.Length3
    ensures forall blk, i, h, d | 0 <= blk < lo.Length0 && 0 <= i < lo.Length1 && 0 <= h < lo.Length2 &&
                                  0 <= d < lo.Length3 ::
              grid[blk, i, h, 2 * d] == lo[blk, i, h, d] && grid[blk, i, h, 2 * d + 1] == hi[blk, i, h, d]
  {
    grid := new real[lo.Length0, lo.Length1, lo.Length2, 2 * lo.Length3];
    forall blk, i, h, c | 0 <= blk < lo.Length0 && 0 <= i < lo.Length1 && 0 <= h < lo.Length2 && 0 <= c < grid.Length3 {
      grid[blk, i, h, c] := if c % 2 == 0 then lo[blk, i, h, c / 2] else hi[blk, i, h, c / 2];
    }
    forall blk, i, h, d | 0 <= blk < lo.Length0 && 0 <= i < lo.Length1 && 0 <= h < lo.Length2 && 0 <= d < lo.Length3
      ensures grid[blk, i, h, 2 * d] == lo[blk, i, h, d] && grid[blk, i, h, 2 * d + 1] == hi[blk, i, h, d]
    {
      EvenOdd(d);
    }
  }

  lemma EvenOdd(d: nat)
    ensures 2 * d % 2 == 0 && 2 * d / 2 == d
    ensures (2 * d + 1) % 2 == 1 && (2 * d + 1) / 2 == d
  {
  }

  /** Place i of a block is row block * g + i of the body. */
  ghost predicate PlacedAt(body: array4<real>, grid: array4<real>, blk: nat, i: nat, h: nat, c: nat)
    requires body.Length0 == 1 && body.Length2 == grid.Length2 && body.Length3 == grid.Length3
    requires blk < grid.Length0 && i < grid.Length1 && h < grid.Length2 && c < grid.Length3
    reads body, grid
  {
    var row := BlockStart(blk, grid.Length1) + i;
    row < body.Length1 && body[0, row, h, c] == grid[blk, i, h, c]
  }

  /** Reshape of (blocks, g, ...) to (1, blocks * g, ...). */
  method Flatten(grid: array4<real>) returns (body: array4<real>)
    requires grid.Length1 > 0
    ensures fresh(body) && body.Length0 == 1 && body.Length1 == BlockStart(grid.Length0, grid.Length1)
    ensures body.Length2 == grid.Length2 && body.Length3 == grid.Length3
    ensures forall blk, i, h, c | 0 <= blk < grid.Length0 && 0 <= i < grid.Length1 && 0 <= h < grid.Length2 &&
                                  0 <= c < grid.Length3 :: PlacedAt(body, grid, blk, i, h, c)
  {
    var g := grid.Length1;
    body := new real[1, BlockStart(grid.Length0, g), grid.Length2, grid.Length3];
    forall row: nat ensures row < body.Length1 <==> BlockOf(row, g) < grid.Length0 {
      RowHasBlock(row, g, grid.Length0);
    }
    forall row, h, c | 0 <= row < body.Length1 && 0 <= h < body.Length2 && 0 <= c < body.Length3 {
      body[0, row, h, c] := grid[BlockOf(row, g), PlaceOf(row, g), h, c];
    }
    FlatByBlock(body, grid);
  }

  /** Row by row, the body is the grid read at its block and place. */
  ghost predicate Flat(body: array4<real>, grid: array4<real>)
    requires grid.Length1 > 0
    reads body, grid
  {
    && body.Length0 == 1 && body.Length1 == BlockStart(grid.Length0, grid.Length1)
    && body.Length2 == grid.Length2 && body.Length3 == grid.Length3
    && forall row, h, c | 0 <= row < body.Length1 && 0 <= h < body.Length2 && 0 <= c < body.Length3 ::
         && BlockOf(row, grid.Length1) < grid.Length0
         && body[0, row, h, c] == grid[BlockOf(row, grid.Length1), PlaceOf(row, grid.Length1), h, c]
  }

  lemma FlatByBlock(body: array4<real>, grid: array4<real>)
    requires grid.Length1 > 0 && Flat(body, grid)
    ensures forall blk, i, h, c | 0 <= blk < grid.Length0 && 0 <= i < grid.Length1 && 0 <= h < grid.Length2 &&
                                  0 <= c < grid.Length3 :: PlacedAt(body, grid, blk, i, h, c)
  {
    forall blk, i, h, c | 0 <= blk < grid.Length0 && 0 <= i < grid.Length1 && 0 <= h < grid.Length2 &&
                          0 <= c < grid.Length3
      ensures PlacedAt(body, grid, blk, i, h, c)
    {
      BlockOfRow(blk, i, grid.Length1);
      RowHasBlock(BlockStart(blk, grid.Length1) + i, grid.Length1, grid.Length0);
    }
  }

  /** Both: what the two nibble grids hold, at its row and channel. */
  method LayOut(lo: array4<real>, hi: array4<real>) returns (body: array4<real>)
    requires lo.Length0 == hi.Length0 && lo.Length1 == hi.Length1 && lo.Length1 > 0
    requires lo.Length2 == hi.Length2 && lo.Length3 == hi.Length3
    ensures body.Length0 == 1 && body.Length1 == BlockStart(lo.Length0, lo.Length1)
    ensures body.Length2 == lo.Length2 && body.Length3 == 2 * lo.Length3
    ensures forall blk, i, h, d | 0 <= blk < lo.Length0 && 0 <= i < lo.Length1 && 0 <= h < lo.Length2 &&
                                  0 <= d < lo.Length3 ::
              && BlockStart(blk, lo.Length1) + i < body.Length1
              && body[0, BlockStart(blk, lo.Length1) + i, h, 2 * d] == lo[blk, i, h, d]
              && body[0, BlockStart(blk, lo.Length1) + i, h, 2 * d + 1] == hi[blk, i, h, d]
  {
    var grid := Interleave(lo, hi);
    body := Flatten(grid);
    forall blk, i, h, d | 0 <= blk < lo.Length0 && 0 <= i < lo.Length1 && 0 <= h < lo.Length2 && 0 <= d < lo.Length3
      ensures BlockStart(blk, lo.Length1) + i < body.Length1
      ensures body[0, BlockStart(blk, lo.Length1) + i, h, 2 * d] == lo[blk, i, h, d]
      ensures body[0, BlockStart(blk, lo.Length1) + i, h, 2 * d + 1] == hi[blk, i, h, d]
    {
      assert PlacedAt(body, grid, blk, i, h, 2 * d) && PlacedAt(body, grid, blk, i, h, 2 * d + 1);
      assert grid[blk, i, h, 2 * d] == lo[blk, i, h, d] && grid[blk, i, h, 2 * d + 1] == hi[blk, i, h, d];
    }
  }
}
