/** The three boards of the `board_can_place_in_any` test, with the L
    piece (`Hexo::new(0)`): it fits on the first two and not on the
    third. */
module BoardTests {
  import opened Positions
  import opened Hexos
  import opened Boards

  const FirstCells: seq<seq<bool>> := [
    [true, true, true, false, true, true],
    [true, true, true, false, true, true],
    [true, true, false, false, true, true],
    [true, true, false, false, true, true]
  ]

  const SecondCells: seq<seq<bool>> := [
    [true, true, true, true, true, true],
    [true, true, true, true, true, true],
    [false, false, false, false, true, true],
    [true, true, false, false, true, true]
  ]

  const ThirdCells: seq<seq<bool>> := [
    [false, false, true, false, false, false],
    [true, false, false, false, true, false],
    [false, false, true, false, false, false],
    [true, false, false, false, true, false]
  ]

  /** The board is `ROWS` by `COLS` and holds these cells. */
  ghost predicate Holds(b: Board, cells: seq<seq<bool>>)
    reads b, b.grid
  {
    && b.grid.Length0 == Rows && b.grid.Length1 == Cols
    && |cells| == Rows && (forall x :: 0 <= x < Rows ==> |cells[x]| == Cols)
    && forall x, y :: 0 <= x < Rows && 0 <= y < Cols ==> b.grid[x, y] == cells[x][y]
  }

  /** On the first board the mirrored piece turned once fits along the
      free column, anchored at (3, 3). */
  lemma FirstCellsFit(b: Board)
    requires Holds(b, FirstCells)
    ensures b.CanPlaceSomewhere(Hexo(0))
  {
    var r := AllOrbit(Hexo(0))[5];
    assert r == RHexo(Hexo(0), Transform(true, 1));
    assert RTiles(r) == [Pos(0, 0), Pos(-1, 0), Pos(-2, 0), Pos(-3, 0), Pos(0, -1), Pos(-1, -1)];
    var m := MoveTo(r, Pos(3, 3));
    assert MTiles(m) == [Pos(3, 3), Pos(2, 3), Pos(1, 3), Pos(0, 3), Pos(3, 2), Pos(2, 2)];
    assert b.CanPlace(m);
  }

  /** On the second board the mirrored piece turned twice fits along the
      free row, anchored at (2, 3). */
  lemma SecondCellsFit(b: Board)
    requires Holds(b, SecondCells)
    ensures b.CanPlaceSomewhere(Hexo(0))
  {
    var r := AllOrbit(Hexo(0))[6];
    assert r == RHexo(Hexo(0), Transform(true, 2));
    assert RTiles(r) == [Pos(0, 0), Pos(0, -1), Pos(0, -2), Pos(0, -3), Pos(1, 0), Pos(1, -1)];
    var m := MoveTo(r, Pos(2, 3));
    assert MTiles(m) == [Pos(2, 3), Pos(2, 2), Pos(2, 1), Pos(2, 0), Pos(3, 3), Pos(3, 2)];
    assert !b.grid[2, 3] && !b.grid[2, 2] && !b.grid[2, 1] && !b.grid[2, 0] by {
      assert SecondCells[2] == [false, false, false, false, true, true];
    }
    assert !b.grid[3, 3] && !b.grid[3, 2] by {
      assert SecondCells[3] == [true, true, false, false, true, true];
    }
    assert b.CanPlace(m) by {
      forall i | 0 <= i < 6
        ensures b.InBound(MTiles(m)[i]) && !b.IsPlaced(MTiles(m)[i])
      {
      }
    }
  }

  /** On the third board no free run of four cells has room for the foot
      of the L, so the piece fits nowhere. */
  lemma ThirdCellsBlocked(b: Board)
    requires Holds(b, ThirdCells)
    ensures !b.CanPlaceSomewhere(Hexo(0))
  {
    forall i, x, y | 0 <= i < 8 && 0 <= x < Rows && 0 <= y < Cols
      ensures !b.CanPlace(MoveTo(AllOrbit(Hexo(0))[i], Pos(x, y)))
    {
      var m := MoveTo(AllOrbit(Hexo(0))[i], Pos(x, y));
      ThirdBoardNoFit(i, x, y);
      var k :| 0 <= k < 6 && !FreeIn(ThirdCells, MTiles(m)[k]);
      assert !(b.InBound(MTiles(m)[k]) && !b.IsPlaced(MTiles(m)[k]));
    }
  }

  /** `board_can_place_in_any`: the L piece fits on the first two boards
      and not on the third. */
  method CanPlaceInAny() returns (first: bool, second: bool, third: bool)
    ensures first && second && !third
  {
    var b1 := new Board.FromCells(FirstCells, Cols);
    FirstCellsFit(b1);
    first := b1.CanPlaceSomewhere(Hexo(0));
    var b2 := new Board.FromCells(SecondCells, Cols);
    SecondCellsFit(b2);
    second := b2.CanPlaceSomewhere(Hexo(0));
    var b3 := new Board.FromCells(ThirdCells, Cols);
    ThirdCellsBlocked(b3);
    third := b3.CanPlaceSomewhere(Hexo(0));
  }

  /** The cell at `p` is on a board of these cells and free. */
  ghost predicate FreeIn(cells: seq<seq<bool>>, p: Pos) {
    0 <= p.x < |cells| && 0 <= p.y < |cells[p.x]| && !cells[p.x][p.y]
  }

  /** Every tile of `m` is on a free cell. */
  ghost predicate FitsIn(cells: seq<seq<bool>>, m: MovedHexo)
    requires ValidHexo(m.rhexo.hexo)
  {
    forall k :: 0 <= k < 6 ==> FreeIn(cells, MTiles(m)[k])
  }

  /** The third board has no four free cells in a row along y. */
  lemma ThirdBoardNoRun(x: int, y: int)
    ensures !(FreeIn(ThirdCells, Pos(x, y)) && FreeIn(ThirdCells, Pos(x, y + 1)) &&
              FreeIn(ThirdCells, Pos(x, y + 2)) && FreeIn(ThirdCells, Pos(x, y + 3)))
  {
  }

  /** Its only four free cells in a row along x are the columns 1, 3 and 5,
      and beside none of these are two free cells side by side at an end. */
  lemma ThirdBoardColumns(x: int, y: int)
    ensures FreeIn(ThirdCells, Pos(x, y)) && FreeIn(ThirdCells, Pos(x + 1, y)) &&
            FreeIn(ThirdCells, Pos(x + 2, y)) && FreeIn(ThirdCells, Pos(x + 3, y))
            ==> x == 0 && (y == 1 || y == 3 || y == 5)
    ensures y == 1 || y == 3 || y == 5 ==>
      && !(FreeIn(ThirdCells, Pos(0, y - 1)) && FreeIn(ThirdCells, Pos(1, y - 1)))
      && !(FreeIn(ThirdCells, Pos(0, y + 1)) && FreeIn(ThirdCells, Pos(1, y + 1)))
      && !(FreeIn(ThirdCells, Pos(3, y - 1)) && FreeIn(ThirdCells, Pos(2, y - 1)))
      && !(FreeIn(ThirdCells, Pos(3, y + 1)) && FreeIn(ThirdCells, Pos(2, y + 1)))
  {
  }

  /** Lying along y, the piece needs four free cells in a row along y. */
  lemma ThirdBoardNoFitAlongY(t: Transform, x: int, y: int)
    requires t.rotate == 0 || t.rotate == 2
    ensures !FitsIn(ThirdCells, MovedHexo(RHexo(Hexo(0), t), Pos(x, y)))
  {
    var m := MovedHexo(RHexo(Hexo(0), t), Pos(x, y));
    var ts := MTiles(m);
    FirstTileAtDisplacement(m);
    if t.rotate == 0 {
      assert ts[1] == Pos(x, y + 1) && ts[2] == Pos(x, y + 2) && ts[3] == Pos(x, y + 3);
      ThirdBoardNoRun(x, y);
    } else {
      assert ts[1] == Pos(x, y - 1) && ts[2] == Pos(x, y - 2) && ts[3] == Pos(x, y - 3);
      ThirdBoardNoRun(x, y - 3);
    }
  }

  /** Lying along x, the piece needs a free column, and then a free pair
      beside one end of it. */
  lemma ThirdBoardNoFitAlongX(t: Transform, x: int, y: int)
    requires t.rotate == 1 || t.rotate == 3
    ensures !FitsIn(ThirdCells, MovedHexo(RHexo(Hexo(0), t), Pos(x, y)))
  {
    var m := MovedHexo(RHexo(Hexo(0), t), Pos(x, y));
    var ts := MTiles(m);
    FirstTileAtDisplacement(m);
    if (t.rotate == 1) != t.flipped {
      var side := if t.flipped then 1 else -1;
      assert ts[1] == Pos(x + 1, y) && ts[2] == Pos(x + 2, y) && ts[3] == Pos(x + 3, y);
      assert ts[4] == Pos(x, y + side) && ts[5] == Pos(x + 1, y + side);
      ThirdBoardColumns(x, y);
    } else {
      var side := if t.flipped then -1 else 1;
      assert ts[1] == Pos(x - 1, y) && ts[2] == Pos(x - 2, y) && ts[3] == Pos(x - 3, y);
      assert ts[4] == Pos(x, y + side) && ts[5] == Pos(x - 1, y + side);
      ThirdBoardColumns(x - 3, y);
    }
  }

  /** No orientation of the L piece fits anywhere on the third board. */
  lemma ThirdBoardNoFit(i: int, x: int, y: int)
    requires 0 <= i < 8
    ensures !FitsIn(ThirdCells, MoveTo(AllOrbit(Hexo(0))[i], Pos(x, y)))
  {
    var t := AllOrbit(Hexo(0))[i].transform;
    assert AllOrbit(Hexo(0))[i] == RHexo(Hexo(0), t);
    if t.rotate == 0 || t.rotate == 2 {
      ThirdBoardNoFitAlongY(t, x, y);
    } else {
      ThirdBoardNoFitAlongX(t, x, y);
    }
  }
}
