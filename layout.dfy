/** The starting layout built by `createInvaders` and `createBarriers`
    (game.js:249-271) for the 800 x 600 screen. */
module Layout {
  import opened Geometry
  import opened Entities
  import opened Formation

  const INVADER_ROWS := 5
  const INVADER_COLS := 10
  const BARRIER_CLUSTERS := 4
  const BARRIER_ROWS := 3
  const BARRIER_COLS := 5
  const BARRIER_CELLS := BARRIER_ROWS * BARRIER_COLS

  /** The 5 x 10 grid in push order: row by row, column by column inside a row. */
  function InvaderGrid(): seq<Invader>
  {
    seq(INVADER_ROWS * INVADER_COLS, k requires 0 <= k < INVADER_ROWS * INVADER_COLS =>
          NewInvader(100 + 50 * (k % INVADER_COLS), 50 + 50 * (k / INVADER_COLS),
                     if k / INVADER_COLS < 2 then 1 else 2))
  }

  /** The 4 clusters of 3 x 5 parts in push order: cluster, then row, then column. */
  function BarrierGrid(): seq<BarrierPart>
  {
    seq(BARRIER_CLUSTERS * BARRIER_CELLS, k requires 0 <= k < BARRIER_CLUSTERS * BARRIER_CELLS =>
          NewBarrierPart(200 * (k / BARRIER_CELLS) + 100 + 10 * (k % BARRIER_COLS),
                         450 + 10 * ((k % BARRIER_CELLS) / BARRIER_COLS)))
  }

  /** The invader pushed at `row`, `col` sits at (100 + 50 col, 50 + 50 row) and is of
      type 1 exactly in the first two rows. */
  lemma InvaderGridAt(row: int, col: int)
    requires 0 <= row < INVADER_ROWS && 0 <= col < INVADER_COLS
    ensures row * INVADER_COLS + col < |InvaderGrid()|
    ensures InvaderGrid()[row * INVADER_COLS + col] ==
            NewInvader(100 + 50 * col, 50 + 50 * row, if row < 2 then 1 else 2)
  {
    var k := row * INVADER_COLS + col;
    assert k / INVADER_COLS == row && k % INVADER_COLS == col;
  }

  /** The part pushed for cluster `i` at `row`, `col` sits at
      (800/4 i + 800/8 + 10 col, 600 - 150 + 10 row) with full health. */
  lemma BarrierGridAt(i: int, row: int, col: int)
    requires 0 <= i < BARRIER_CLUSTERS && 0 <= row < BARRIER_ROWS && 0 <= col < BARRIER_COLS
    ensures i * BARRIER_CELLS + row * BARRIER_COLS + col < |BarrierGrid()|
    ensures BarrierGrid()[i * BARRIER_CELLS + row * BARRIER_COLS + col] ==
            NewBarrierPart(SCREEN_WIDTH / 4 * i + SCREEN_WIDTH / 8 + 10 * col, SCREEN_HEIGHT - 150 + 10 * row)
  {
    var k := i * BARRIER_CELLS + row * BARRIER_COLS + col;
    assert k / BARRIER_CELLS == i && k % BARRIER_CELLS == row * BARRIER_COLS + col;
    assert (row * BARRIER_COLS + col) / BARRIER_COLS == row;
    assert k % BARRIER_COLS == col;
  }

  /** Pushing the part for cluster `i` at `row`, `col` extends the pushed prefix of the
      layout by one. */
  lemma BarrierGridStep(i: int, row: int, col: int)
    requires 0 <= i < BARRIER_CLUSTERS && 0 <= row < BARRIER_ROWS && 0 <= col < BARRIER_COLS
    ensures i * BARRIER_CELLS + row * BARRIER_COLS + col < |BarrierGrid()|
    ensures BarrierGrid()[..i * BARRIER_CELLS + row * BARRIER_COLS + col + 1] ==
            BarrierGrid()[..i * BARRIER_CELLS + row * BARRIER_COLS + col] +
            [NewBarrierPart(SCREEN_WIDTH / 4 * i + SCREEN_WIDTH / 8 + 10 * col, SCREEN_HEIGHT - 150 + 10 * row)]
  {
    var k := i * BARRIER_CELLS + row * BARRIER_COLS + col;
    BarrierGridAt(i, row, col);
    assert BarrierGrid()[..k + 1] == BarrierGrid()[..k] + [BarrierGrid()[k]];
  }

  /** At the start no invader is at an edge in either direction, none has reached the
      defence line, and none touches another invader or a barrier part. */
  lemma InvaderGridClear()
    ensures forall k :: 0 <= k < |InvaderGrid()| ==>
              !Pushing(InvaderGrid()[k], -1) && !Pushing(InvaderGrid()[k], 1) && !Landed(InvaderGrid()[k])
    ensures forall k, m :: 0 <= k < m < |InvaderGrid()| ==>
              !CheckCollision(InvaderGrid()[k].Box(), InvaderGrid()[m].Box())
    ensures forall k, m :: 0 <= k < |InvaderGrid()| && 0 <= m < |BarrierGrid()| ==>
              !CheckCollision(InvaderGrid()[k].Box(), BarrierGrid()[m].Box())
  {
    var g := InvaderGrid();
    forall k, m | 0 <= k < m < |g|
      ensures !CheckCollision(g[k].Box(), g[m].Box())
    {
      if k / INVADER_COLS == m / INVADER_COLS {
        assert k % INVADER_COLS < m % INVADER_COLS;
      } else {
        assert k / INVADER_COLS < m / INVADER_COLS;
      }
    }
  }

  /** Every barrier part sits on a 10-pixel lattice point fixed by its cluster, row and column. */
  lemma BarrierCell(k: int)
    requires 0 <= k < |BarrierGrid()|
    ensures BarrierGrid()[k].x == 10 * (20 * (k / BARRIER_CELLS) + 10 + k % BARRIER_COLS)
    ensures BarrierGrid()[k].y == 10 * (45 + (k % BARRIER_CELLS) / BARRIER_COLS)
  {
  }

  /** The push index is rebuilt from the cluster, the row and the column. */
  lemma BarrierIndex(k: int)
    requires 0 <= k < |BarrierGrid()|
    ensures k == BARRIER_CELLS * (k / BARRIER_CELLS) + BARRIER_COLS * ((k % BARRIER_CELLS) / BARRIER_COLS) + k % BARRIER_COLS
  {
    var c, r := k % BARRIER_CELLS, (k % BARRIER_CELLS) / BARRIER_COLS;
    assert k == BARRIER_CELLS * (k / BARRIER_CELLS) + c;
    assert c == BARRIER_COLS * r + c % BARRIER_COLS;
    assert c % BARRIER_COLS == k % BARRIER_COLS;
  }

  /** Neighbouring barrier parts share an edge, so no two parts collide. */
  lemma BarrierGridClear()
    ensures forall k, m :: 0 <= k < m < |BarrierGrid()| ==>
              !CheckCollision(BarrierGrid()[k].Box(), BarrierGrid()[m].Box())
  {
    var g := BarrierGrid();
    forall k, m | 0 <= k < m < |g|
      ensures !CheckCollision(g[k].Box(), g[m].Box())
    {
      BarrierCell(k);
      BarrierCell(m);
      BarrierIndex(k);
      BarrierIndex(m);
    }
  }
}
