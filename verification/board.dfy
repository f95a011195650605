/** The board of `src/game/board.rs`: a grid of covered cells indexed
    `[x][y]`, filled in place as pieces are placed. The extents are those
    of the grid, so the same class serves a board of `ROWS` by `COLS` and
    one of `COLS` by `ROWS`. */
module Boards {
  import opened Positions
  import opened Hexos
  import opened Outcomes

  /** `ROWS` and `COLS` of the test build. */
  const Rows := 4
  const Cols := 6

  /** No two tiles of a moved piece coincide. */
  lemma MTilesDistinct(m: MovedHexo)
    requires ValidHexo(m.rhexo.hexo)
    ensures forall i, j :: 0 <= i < j < 6 ==> MTiles(m)[i] != MTiles(m)[j]
  {
    var h := m.rhexo.hexo;
    forall i, j | 0 <= i < j < 6
      ensures MTiles(m)[i] != MTiles(m)[j]
    {
      var a, b := Tiles(h)[i], Tiles(h)[j];
      assert a != b by {
        assert h.id == 0 || h.id == 1;
      }
      ApplyInjective(m.rhexo.transform, a, b);
      assert RTiles(m.rhexo)[i] == Apply(m.rhexo.transform, a);
      assert RTiles(m.rhexo)[j] == Apply(m.rhexo.transform, b);
    }
  }

  class Board {
    /** `board[x][y]`: whether the cell at (x, y) is covered. */
    var grid: array2<bool>
    var placedHexos: seq<PlacedHexo>

    /** `Board::new`: an empty board of the given extents. */
    constructor (xs: nat, ys: nat)
      ensures fresh(grid) && grid.Length0 == xs && grid.Length1 == ys
      ensures forall x, y :: 0 <= x < xs && 0 <= y < ys ==> !grid[x, y]
      ensures placedHexos == []
    {
      grid := new bool[xs, ys]((x, y) => false);
      placedHexos := [];
    }

    /** A board with the given cells, row `x` holding the cells `(x, y)`,
        as the tests write one out. */
    constructor FromCells(cells: seq<seq<bool>>, ys: nat)
      requires forall x :: 0 <= x < |cells| ==> |cells[x]| == ys
      ensures fresh(grid) && grid.Length0 == |cells| && grid.Length1 == ys
      ensures forall x, y :: 0 <= x < |cells| && 0 <= y < ys ==> grid[x, y] == cells[x][y]
      ensures placedHexos == []
    {
      grid := new bool[|cells|, ys]((x, y) requires 0 <= x < |cells| && 0 <= y < ys => cells[x][y]);
      placedHexos := [];
    }

    /** `in_bound`: inside the grid. */
    predicate InBound(p: Pos)
      reads this
    {
      0 <= p.x < grid.Length0 && 0 <= p.y < grid.Length1
    }

    /** `is_placed`, which asserts that the cell is on the board. */
    predicate IsPlaced(p: Pos)
      requires InBound(p)
      reads this, grid
    {
      grid[p.x, p.y]
    }

    /** `mark_placed`: covers one cell, which must be on the board and
        free. */
    method MarkPlaced(tile: Pos)
      requires InBound(tile) && !IsPlaced(tile)
      modifies grid
      ensures grid[tile.x, tile.y]
      ensures forall x, y :: 0 <= x < grid.Length0 && 0 <= y < grid.Length1 && Pos(x, y) != tile ==>
        grid[x, y] == old(grid[x, y])
    {
      grid[tile.x, tile.y] := true;
    }

    /** `can_place`: every tile on the board and free. */
    predicate CanPlace(m: MovedHexo)
      requires ValidHexo(m.rhexo.hexo)
      reads this, grid
    {
      forall i :: 0 <= i < 6 ==> InBound(MTiles(m)[i]) && !IsPlaced(MTiles(m)[i])
    }

    /** `can_place_somewhere`: some orientation of the orbit fits with its
        origin on some free cell. */
    predicate CanPlaceSomewhere(h: Hexo)
      requires ValidHexo(h)
      reads this, grid
    {
      exists i, x, y :: 0 <= i < 8 && 0 <= x < grid.Length0 && 0 <= y < grid.Length1 &&
        !grid[x, y] && CanPlace(MoveTo(AllOrbit(h)[i], Pos(x, y)))
    }

    /** Trying only free anchor cells and the eight orbit orientations
        loses nothing: the piece fits somewhere exactly when some reduced
        orientation fits at some displacement. */
    lemma CanPlaceSomewhereSpec(h: Hexo)
      requires ValidHexo(h)
      ensures CanPlaceSomewhere(h) <==>
        exists t, d :: Reduced(t) && CanPlace(MovedHexo(RHexo(h, t), d))
    {
      if CanPlaceSomewhere(h) {
        var i, x, y :| 0 <= i < 8 && 0 <= x < grid.Length0 && 0 <= y < grid.Length1 &&
          !grid[x, y] && CanPlace(MoveTo(AllOrbit(h)[i], Pos(x, y)));
        AllOrbitSpec(h);
        assert Reduced(AllOrbit(h)[i].transform);
        assert AllOrbit(h)[i] == RHexo(h, AllOrbit(h)[i].transform);
      }
      if exists t, d :: Reduced(t) && CanPlace(MovedHexo(RHexo(h, t), d)) {
        var t, d :| Reduced(t) && CanPlace(MovedHexo(RHexo(h, t), d));
        AnchorIsFree(h, t, d);
      }
    }

    /** A fitting placement is found from its own displacement, which is
        a free cell since every piece has a tile at the origin. */
    lemma AnchorIsFree(h: Hexo, t: Transform, d: Pos)
      requires ValidHexo(h) && Reduced(t) && CanPlace(MovedHexo(RHexo(h, t), d))
      ensures CanPlaceSomewhere(h)
    {
      var i := (if t.flipped then 4 else 0) + t.rotate;
      assert AllOrbit(h)[i] == RHexo(h, t);
      var m := MovedHexo(RHexo(h, t), d);
      FirstTileAtDisplacement(m);
      assert MoveTo(AllOrbit(h)[i], Pos(d.x, d.y)) == m;
      assert 0 <= d.x < grid.Length0 && 0 <= d.y < grid.Length1 && !grid[d.x, d.y];
      assert CanPlace(MoveTo(AllOrbit(h)[i], Pos(d.x, d.y)));
    }

    /** `place`: refused, changing nothing, when the piece does not fit;
        otherwise covers exactly its tiles. The list of placed pieces is
        never extended. */
    method Place(ph: PlacedHexo) returns (r: Outcome)
      requires ValidHexo(ph.movedHexo.rhexo.hexo)
      modifies grid
      ensures r == Ok <==> old(CanPlace(ph.movedHexo))
      ensures r == Err ==> unchanged(grid)
      ensures r == Ok ==> forall x, y :: 0 <= x < grid.Length0 && 0 <= y < grid.Length1 ==>
        grid[x, y] == (old(grid[x, y]) || Pos(x, y) in MTiles(ph.movedHexo))
      ensures placedHexos == old(placedHexos)
    {
      if !CanPlace(ph.movedHexo) {
        return Err;
      }
      var tiles := MTiles(ph.movedHexo);
      MTilesDistinct(ph.movedHexo);
      for i := 0 to 6
        invariant forall x, y :: 0 <= x < grid.Length0 && 0 <= y < grid.Length1 ==>
          grid[x, y] == (old(grid[x, y]) || Pos(x, y) in tiles[..i])
      {
        assert tiles[i] !in tiles[..i];
        MarkPlaced(tiles[i]);
        assert tiles[..i + 1] == tiles[..i] + [tiles[i]];
      }
      assert tiles[..6] == tiles;
      return Ok;
    }

    /** `placed_hexos`. */
    function PlacedHexos(): (r: seq<PlacedHexo>)
      reads this
      ensures r == placedHexos
    {
      placedHexos
    }
  }
}
