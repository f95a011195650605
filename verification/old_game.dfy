/** The oldest copy of the game (`src/game/mod.rs`): a board of `ROWS` by
    `COLS` cells and a game state over the older points and moved pieces,
    whose transforms carry their own displacement. The pool and the hands
    are the core's inventory object; the rules are those of the struct
    state of `src/game/state.rs`. */
module OldGame {
  import opened OldPoints
  import opened OldHexos
  import opened Players
  import opened Outcomes
  import opened HexoSets
  import Positions
  import Hexos
  import Boards
  import CoreState

  /** `in_bound`: `x` below `ROWS`, `y` below `COLS`. */
  predicate InBound(p: Point) {
    0 <= p.x < Boards.Rows && 0 <= p.y < Boards.Cols
  }

  /** An older transform never sends two points to one. */
  lemma ApplyInjective(t: Transform, a: Point, b: Point)
    ensures Apply(t, a) == Apply(t, b) <==> a == b
  {
  }

  /** No two tiles of a moved piece coincide. */
  lemma MTilesDistinct(m: MovedHexo)
    requires Hexos.ValidHexo(m.hexo)
    ensures forall i, j :: 0 <= i < j < 6 ==> MTiles(m)[i] != MTiles(m)[j]
  {
    forall i, j | 0 <= i < j < 6
      ensures MTiles(m)[i] != MTiles(m)[j]
    {
      var a, b := Tiles(m.hexo)[i], Tiles(m.hexo)[j];
      assert a != b by {
        assert m.hexo.id == 0 || m.hexo.id == 1;
      }
      ApplyInjective(m.transform, a, b);
    }
  }

  class Board {
    /** `board[x][y]`: whether the cell at (x, y) is covered. */
    const grid: array2<bool>

    /** The grid has `ROWS` by `COLS` cells. */
    ghost predicate Valid()
      reads this
    {
      grid.Length0 == Boards.Rows && grid.Length1 == Boards.Cols
    }

    /** `Board::new`: every cell free. */
    constructor ()
      ensures Valid() && fresh(grid)
      ensures forall x, y :: 0 <= x < Boards.Rows && 0 <= y < Boards.Cols ==> !grid[x, y]
    {
      grid := new bool[Boards.Rows, Boards.Cols]((x, y) => false);
    }

    /** A board with the given cells, row `x` holding the cells `(x, y)`,
        as the tests write one out. */
    constructor FromCells(cells: seq<seq<bool>>)
      requires |cells| == Boards.Rows && forall x :: 0 <= x < |cells| ==> |cells[x]| == Boards.Cols
      ensures Valid() && fresh(grid)
      ensures forall x, y :: 0 <= x < Boards.Rows && 0 <= y < Boards.Cols ==> grid[x, y] == cells[x][y]
    {
      grid := new bool[Boards.Rows, Boards.Cols]((x, y) requires 0 <= x < |cells| && 0 <= y < Boards.Cols => cells[x][y]);
    }

    /** `is_placed`, which asserts that the cell is on the board. */
    predicate IsPlaced(p: Point)
      requires Valid() && InBound(p)
      reads this, grid
    {
      grid[p.x, p.y]
    }

    /** `place_tile`: covers one cell, which must be on the board and
        free. */
    method PlaceTile(tile: Point)
      requires Valid() && InBound(tile) && !IsPlaced(tile)
      modifies grid
      ensures grid[tile.x, tile.y]
      ensures forall x, y :: 0 <= x < Boards.Rows && 0 <= y < Boards.Cols && Point(x, y) != tile ==>
        grid[x, y] == old(grid[x, y])
    {
      grid[tile.x, tile.y] := true;
    }

    /** `can_place`: every tile on the board and free. */
    predicate CanPlace(m: MovedHexo)
      requires Valid() && Hexos.ValidHexo(m.hexo)
      reads this, grid
    {
      forall i :: 0 <= i < 6 ==> InBound(MTiles(m)[i]) && !IsPlaced(MTiles(m)[i])
    }

    /** `can_place_somewhere`: some orientation of the orbit, moved to
        some free cell, fits. */
    predicate CanPlaceSomewhere(h: Hexos.Hexo)
      requires Valid() && Hexos.ValidHexo(h)
      reads this, grid
    {
      exists i, x, y :: 0 <= i < 8 && 0 <= x < Boards.Rows && 0 <= y < Boards.Cols &&
        !grid[x, y] && CanPlace(MoveTo(AllOrbit(h)[i], Point(x, y)))
    }

    /** `place`: refused, changing nothing, when the piece does not fit;
        otherwise covers exactly its tiles, one `place_tile` at a time. */
    method Place(m: MovedHexo) returns (r: Outcome)
      requires Valid() && Hexos.ValidHexo(m.hexo)
      modifies grid
      ensures r == Ok <==> old(CanPlace(m))
      ensures r == Err ==> unchanged(grid)
      ensures r == Ok ==> forall x, y :: 0 <= x < Boards.Rows && 0 <= y < Boards.Cols ==>
        grid[x, y] == (old(grid[x, y]) || Point(x, y) in MTiles(m))
    {
      if !CanPlace(m) {
        return Err;
      }
      var tiles := MTiles(m);
      MTilesDistinct(m);
      for i := 0 to 6
        invariant forall x, y :: 0 <= x < Boards.Rows && 0 <= y < Boards.Cols ==>
          grid[x, y] == (old(grid[x, y]) || Point(x, y) in tiles[..i])
      {
        assert tiles[i] !in tiles[..i];
        PlaceTile(tiles[i]);
        assert tiles[..i + 1] == tiles[..i] + [tiles[i]];
      }
      assert tiles[..6] == tiles;
      return Ok;
    }
  }

  // ---- Agreement with the board of `src/game/board.rs` -------------------------

  /** The older orientation that `CoreOrientation` sends to a given reduced
      core orientation, at displacement `d`. */
  function OldOrientation(c: Hexos.Transform, d: Point): (t: Transform)
    requires Hexos.Reduced(c)
    ensures Reduced(t) && CoreOrientation(t) == c && t.displacement == d
  {
    Transform(c.flipped, if !c.flipped then c.rotate else if c.rotate <= 2 then 2 - c.rotate else 3, d)
  }

  /** The older piece and the core piece in the matching orientation, at
      the same displacement, cover the same cells in the same order. */
  lemma TilesAgree(h: Hexos.Hexo, t: Transform)
    requires Hexos.ValidHexo(h) && Reduced(t)
    ensures forall k :: 0 <= k < 6 ==>
      ToPos(MTiles(MovedHexo(h, t))[k]) ==
      Hexos.MTiles(Hexos.MovedHexo(Hexos.RHexo(h, CoreOrientation(t)), ToPos(t.displacement)))[k]
  {
    forall k | 0 <= k < 6
      ensures ToPos(MTiles(MovedHexo(h, t))[k]) ==
        Hexos.MTiles(Hexos.MovedHexo(Hexos.RHexo(h, CoreOrientation(t)), ToPos(t.displacement)))[k]
    {
      SameOrientations(t, Tiles(h)[k]);
    }
  }

  /** On boards with the same cells, an older placement fits exactly when
      the matching core placement does. */
  lemma FitAgrees(b: Board, c: Boards.Board, h: Hexos.Hexo, t: Transform)
    requires b.Valid() && c.grid.Length0 == Boards.Rows && c.grid.Length1 == Boards.Cols
    requires forall x, y :: 0 <= x < Boards.Rows && 0 <= y < Boards.Cols ==> b.grid[x, y] == c.grid[x, y]
    requires Hexos.ValidHexo(h) && Reduced(t)
    ensures b.CanPlace(MovedHexo(h, t)) <==>
      c.CanPlace(Hexos.MovedHexo(Hexos.RHexo(h, CoreOrientation(t)), ToPos(t.displacement)))
  {
    TilesAgree(h, t);
  }

  /** The older board and the board of `src/game/board.rs`, holding the
      same cells, agree on whether a piece fits somewhere, although their
      mirrors differ: the eight orientations are the same maps of the
      plane. */
  lemma {:induction false} FitsSomewhereAgree(b: Board, c: Boards.Board, h: Hexos.Hexo)
    requires b.Valid() && c.grid.Length0 == Boards.Rows && c.grid.Length1 == Boards.Cols
    requires forall x, y :: 0 <= x < Boards.Rows && 0 <= y < Boards.Cols ==> b.grid[x, y] == c.grid[x, y]
    requires Hexos.ValidHexo(h)
    ensures b.CanPlaceSomewhere(h) <==> c.CanPlaceSomewhere(h)
  {
    if b.CanPlaceSomewhere(h) {
      var i, x, y :| 0 <= i < 8 && 0 <= x < Boards.Rows && 0 <= y < Boards.Cols &&
        !b.grid[x, y] && b.CanPlace(MoveTo(AllOrbit(h)[i], Point(x, y)));
      AllOrbitSpec(h);
      var m := MoveTo(AllOrbit(h)[i], Point(x, y));
      assert m == MovedHexo(h, m.transform) && Reduced(m.transform);
      FitAgrees(b, c, h, m.transform);
      c.AnchorIsFree(h, CoreOrientation(m.transform), ToPos(m.transform.displacement));
    }
    if c.CanPlaceSomewhere(h) {
      c.CanPlaceSomewhereSpec(h);
      var ct, d :| Hexos.Reduced(ct) && c.CanPlace(Hexos.MovedHexo(Hexos.RHexo(h, ct), d));
      var t := OldOrientation(ct, Point(d.x, d.y));
      FitAgrees(b, c, h, t);
      OldAnchorIsFree(b, h, t);
    }
  }

  /** A fitting older placement is found from its own displacement, which
      is a free cell since every piece has a tile at the origin. */
  lemma OldAnchorIsFree(b: Board, h: Hexos.Hexo, t: Transform)
    requires b.Valid() && Hexos.ValidHexo(h) && Reduced(t) && b.CanPlace(MovedHexo(h, t))
    ensures b.CanPlaceSomewhere(h)
  {
    var i := (if t.flipped then 4 else 0) + t.rotate;
    var d := t.displacement;
    assert AllOrbit(h)[i] == MovedHexo(h, Transform(t.flipped, t.rotate, Origin));
    assert MoveTo(AllOrbit(h)[i], Point(d.x, d.y)) == MovedHexo(h, t);
    FirstTileAtDisplacement(MovedHexo(h, t));
    assert InBound(MTiles(MovedHexo(h, t))[0]);
    assert 0 <= d.x < Boards.Rows && 0 <= d.y < Boards.Cols && !b.grid[d.x, d.y];
  }

  // ---- The state ----------------------------------------------------------------

  /** A move: choose a piece from the pool, or put one of one's own
      pieces, under an older transform, on the board. */
  datatype Action = PickAction(hexo: Hexos.Hexo) | PlaceAction(moved: MovedHexo)

  /** The piece an action names is one of the table's. */
  predicate ValidAction(a: Action) {
    match a
    case PickAction(h) => Hexos.ValidHexo(h)
    case PlaceAction(m) => Hexos.ValidHexo(m.hexo)
  }

  /** The player `p` holds a piece that fits somewhere on `board`. */
  ghost predicate CanMove(inv: CoreState.Inventory, board: Board, p: Player)
    requires board.Valid()
    reads inv.firstHand, inv.secondHand, board, board.grid
  {
    exists h :: Hexos.ValidHexo(h) && h.id in inv.Owned(p) && board.CanPlaceSomewhere(h)
  }

  /** `current_player_can_place`: false for an empty hand, otherwise
      whether some piece of the hand, tried by increasing id, fits
      somewhere. */
  method PlayerCanPlace(inv: CoreState.Inventory, board: Board, p: Player) returns (b: bool)
    requires inv.Valid() && board.Valid()
    ensures b <==> CanMove(inv, board, p)
  {
    var hexos := inv.HexosOf(p);
    if hexos.IsEmpty() {
      return false;
    }
    var list := hexos.Iter();
    for i := 0 to |list|
      invariant forall j :: 0 <= j < i ==> !board.CanPlaceSomewhere(list[j])
    {
      assert list[i] in list;
      if board.CanPlaceSomewhere(list[i]) {
        return true;
      }
    }
    forall h | Hexos.ValidHexo(h) && h.id in inv.Owned(p)
      ensures !board.CanPlaceSomewhere(h)
    {
      assert h in list;
    }
    return false;
  }

  class State {
    var phase: CoreState.GamePhase
    const board: Board
    var turn: Player
    /** `remaining_hexos` and `player_hexos`. */
    const hexos: CoreState.Inventory
    var winner: Option<Player>

    /** The sets and the board are valid. */
    ghost predicate WellFormed()
      reads hexos.remaining, hexos.firstHand, hexos.secondHand, board
    {
      hexos.Valid() && board.Valid()
    }

    /** What every reachable state keeps: the pick phase is balanced, the
        pool is empty after it, and a winner is recorded exactly when the
        game is over, the opponent of the player who could not move. */
    ghost predicate Valid()
      reads this, hexos.remaining, hexos.firstHand, hexos.secondHand, board
    {
      && WellFormed()
      && (phase == CoreState.Pick ==>
            CoreState.Balanced(hexos.Remaining(), hexos.Owned(First), hexos.Owned(Second), turn))
      && (phase != CoreState.Pick ==> hexos.Remaining() == {})
      && winner == (if phase == CoreState.End then Some(Other(turn)) else None)
    }

    /** Twice the pool and once each hand: what is left to play. */
    ghost function Measure(): nat
      reads hexos.remaining, hexos.firstHand, hexos.secondHand
    {
      2 * |hexos.Remaining()| + |hexos.Owned(First)| + |hexos.Owned(Second)|
    }

    /** The effect of an accepted pick: the piece leaves the pool for the
        mover's hand, and the other player picks next unless the pool is
        empty, when the second player starts placing. */
    twostate predicate Picked(h: Hexos.Hexo)
      reads this, hexos.remaining, hexos.firstHand, hexos.secondHand
    {
      && hexos.Remaining() == old(hexos.Remaining()) - {h.id}
      && hexos.Owned(old(turn)) == old(hexos.Owned(turn)) + {h.id}
      && hexos.Owned(Other(old(turn))) == old(hexos.Owned(Other(turn)))
      && (if hexos.Remaining() == {} then phase == CoreState.Place && turn == Second
          else phase == CoreState.Pick && turn == Other(old(turn)))
    }

    /** The effect of an accepted placement: the board gains exactly the
        piece's cells, the piece leaves the mover's hand, and the other
        player moves next if something of theirs fits; otherwise the game
        is over and the mover has won. */
    twostate predicate Placed(m: MovedHexo)
      requires old(WellFormed()) && WellFormed() && Hexos.ValidHexo(m.hexo)
      reads this, hexos.remaining, hexos.firstHand, hexos.secondHand, board, board.grid
    {
      && (forall x, y :: 0 <= x < Boards.Rows && 0 <= y < Boards.Cols ==>
            board.grid[x, y] == (old(board.grid[x, y]) || Point(x, y) in MTiles(m)))
      && hexos.Owned(old(turn)) == old(hexos.Owned(turn)) - {m.hexo.id}
      && hexos.Owned(Other(old(turn))) == old(hexos.Owned(Other(turn)))
      && turn == Other(old(turn))
      && (phase == CoreState.Place <==> CanMove(hexos, board, turn))
      && (phase == CoreState.End <==> !CanMove(hexos, board, turn))
      && (phase == CoreState.End ==> winner == Some(old(turn)))
    }

    /** `State::new`: the pick phase, the first player to move, every
        piece in the pool, empty hands, an empty board and no winner. */
    constructor ()
      ensures Valid() && fresh(hexos) && fresh(board) && fresh(board.grid)
      ensures fresh(hexos.remaining) && fresh(hexos.firstHand) && fresh(hexos.secondHand)
      ensures phase == CoreState.Pick && turn == First && winner == None
      ensures hexos.Remaining() == AllIds() && hexos.Owned(First) == {} && hexos.Owned(Second) == {}
      ensures forall x, y :: 0 <= x < Boards.Rows && 0 <= y < Boards.Cols ==> !board.grid[x, y]
    {
      board := new Board();
      phase := CoreState.Pick;
      turn := First;
      hexos := new CoreState.Inventory();
      winner := None;
    }

    /** The action is accepted: its kind matches the phase, a picked piece
        is in the pool, and a placed piece belongs to the player to move
        and fits. */
    ghost predicate Legal(a: Action)
      requires WellFormed() && ValidAction(a)
      reads this, hexos.remaining, hexos.firstHand, hexos.secondHand, board, board.grid
    {
      match a
      case PickAction(h) => phase == CoreState.Pick && h.id in hexos.Remaining()
      case PlaceAction(m) =>
        phase == CoreState.Place && m.hexo.id in hexos.Owned(turn) && board.CanPlace(m)
    }

    /** `play`: an action that is not legal is refused and changes
        nothing; a legal one has the effect of its kind, after which what
        is left to play has shrunk. */
    method Play(a: Action) returns (r: Outcome)
      requires Valid() && ValidAction(a)
      modifies this, hexos.remaining, hexos.firstHand, hexos.secondHand, board.grid
      ensures Valid()
      ensures r == Ok <==> old(Legal(a))
      ensures r == Err ==> phase == old(phase) && turn == old(turn) && winner == old(winner)
      ensures r == Err ==> unchanged(hexos.remaining, hexos.firstHand, hexos.secondHand, board.grid)
      ensures r == Ok && a.PickAction? ==> Picked(a.hexo) && unchanged(board.grid)
      ensures r == Ok && a.PlaceAction? ==> Placed(a.moved)
      ensures r == Ok ==> Measure() < old(Measure())
    {
      match (phase, a) {
        case (Pick, PickAction(h)) => r := PickHexo(h);
        case (Place, PlaceAction(m)) => r := PlaceHexo(m);
        case _ => r := Err;
      }
    }

    /** `pick`, called in the pick phase only: refused, changing nothing,
        unless the piece is in the pool; otherwise moves it to the mover's
        hand and calls `next`. */
    method PickHexo(h: Hexos.Hexo) returns (r: Outcome)
      requires Valid() && phase == CoreState.Pick && Hexos.ValidHexo(h)
      modifies this, hexos.remaining, hexos.firstHand, hexos.secondHand
      ensures Valid()
      ensures r == Ok <==> h.id in old(hexos.Remaining())
      ensures r == Err ==> phase == old(phase) && turn == old(turn) && winner == old(winner)
      ensures r == Err ==> unchanged(hexos.remaining, hexos.firstHand, hexos.secondHand)
      ensures r == Ok ==> Picked(h)
      ensures r == Ok ==> Measure() < old(Measure())
    {
      ghost var pool := hexos.Remaining();
      ghost var mine := hexos.Owned(turn);
      r := TakePick(h);
      if r == Err {
        return;
      }
      CoreState.PickKeepsBalance(pool, old(hexos.Owned(First)), old(hexos.Owned(Second)), old(turn), h.id);
      CoreState.MoveCounts(pool, mine, h.id);
      Next();
    }

    /** The part of `pick` before `next`: the pool check, then the move
        from the pool to the mover's hand. */
    method TakePick(h: Hexos.Hexo) returns (r: Outcome)
      requires WellFormed() && Hexos.ValidHexo(h)
      modifies hexos.remaining, hexos.HexosOf(turn)
      ensures WellFormed()
      ensures r == Ok <==> h.id in old(hexos.Remaining())
      ensures r == Ok ==> (hexos.Remaining() == old(hexos.Remaining()) - {h.id} &&
        hexos.Owned(turn) == old(hexos.Owned(turn)) + {h.id})
      ensures r == Err ==> unchanged(hexos.remaining, hexos.firstHand, hexos.secondHand)
      ensures hexos.Owned(Other(turn)) == old(hexos.Owned(Other(turn)))
    {
      r := hexos.Add(turn, h);
    }

    /** `place`, called in the place phase only: refused, changing
        nothing, unless the mover holds the piece, then unless it fits;
        otherwise it covers its cells, leaves the hand, and `next` is
        called. */
    method PlaceHexo(m: MovedHexo) returns (r: Outcome)
      requires Valid() && phase == CoreState.Place && Hexos.ValidHexo(m.hexo)
      modifies this, hexos.firstHand, hexos.secondHand, board.grid
      ensures Valid()
      ensures r == Ok <==> m.hexo.id in old(hexos.Owned(turn)) && old(board.CanPlace(m))
      ensures r == Err ==> phase == old(phase) && turn == old(turn) && winner == old(winner)
      ensures r == Err ==> unchanged(hexos.firstHand, hexos.secondHand, board.grid)
      ensures r == Ok ==> Placed(m)
      ensures r == Ok ==> Measure() < old(Measure())
    {
      ghost var mine := hexos.Owned(turn);
      r := TakePlace(m);
      if r == Err {
        return;
      }
      CoreState.MoveCounts(mine, {}, m.hexo.id);
      Next();
    }

    /** The part of `place` before `next`: the ownership check, the
        board's `place`, then the removal from the hand. */
    method TakePlace(m: MovedHexo) returns (r: Outcome)
      requires WellFormed() && Hexos.ValidHexo(m.hexo)
      modifies hexos.HexosOf(turn), board.grid
      ensures WellFormed()
      ensures r == Ok <==> m.hexo.id in old(hexos.Owned(turn)) && old(board.CanPlace(m))
      ensures r == Err ==> unchanged(hexos.HexosOf(turn), board.grid)
      ensures r == Ok ==>
        && (forall x, y :: 0 <= x < Boards.Rows && 0 <= y < Boards.Cols ==>
              board.grid[x, y] == (old(board.grid[x, y]) || Point(x, y) in MTiles(m)))
        && hexos.Owned(turn) == old(hexos.Owned(turn)) - {m.hexo.id}
      ensures hexos.Owned(Other(turn)) == old(hexos.Owned(Other(turn)))
      ensures hexos.Remaining() == old(hexos.Remaining())
    {
      if !hexos.HexosOf(turn).Has(m.hexo) {
        return Err;
      }
      r := board.Place(m);
      if r == Err {
        return;
      }
      r := hexos.Remove(turn, m.hexo);
    }

    /** `next`, which panics once the game is over. After a pick the other
        player picks, unless the pool is empty, when the second player
        starts placing. After a placement the other player moves; if
        nothing of theirs fits the game ends and the player before them
        wins. */
    method Next()
      requires WellFormed() && phase != CoreState.End
      modifies this
      ensures old(phase) == CoreState.Pick ==> winner == old(winner)
      ensures old(phase) == CoreState.Pick ==>
        if hexos.Remaining() == {} then phase == CoreState.Place && turn == Second
        else phase == CoreState.Pick && turn == Other(old(turn))
      ensures old(phase) == CoreState.Place ==> turn == Other(old(turn))
      ensures old(phase) == CoreState.Place ==> (phase == CoreState.Place <==> CanMove(hexos, board, turn))
      ensures old(phase) == CoreState.Place ==> (phase == CoreState.End <==> !CanMove(hexos, board, turn))
      ensures old(phase) == CoreState.Place && phase == CoreState.Place ==> winner == old(winner)
      ensures old(phase) == CoreState.Place && phase == CoreState.End ==>
        winner == Some(Other(turn)) && winner == Some(old(turn))
    {
      match phase {
        case Pick =>
          if hexos.remaining.IsEmpty() {
            phase := CoreState.Place;
            turn := Second;
          } else {
            turn := Other(turn);
          }
        case Place =>
          turn := Other(turn);
          var canPlace := PlayerCanPlace(hexos, board, turn);
          if !canPlace {
            phase := CoreState.End;
            winner := Some(Other(turn));
            OtherInvolution(old(turn));
          }
      }
    }
  }
}
