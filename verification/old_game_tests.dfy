/** The tests of the oldest copy of the game (`src/game/mod.rs`), played
    on its state and board. The board has `ROWS` = 4 rows (`x`) and
    `COLS` = 6 columns (`y`). */
module OldGameTests {
  import opened OldPoints
  import opened OldHexos
  import opened Players
  import opened Outcomes
  import opened OldGame
  import Hexos
  import Boards
  import CoreState
  import HexoSets
  import BoardTests

  /** `after_pick_adds_to_player_set` and `after_pick_next_turn`: the
      first pick is accepted, the piece is in the first player's hand, and
      the second player moves next. */
  method AfterPick() returns (before: Player, r: Outcome, owned: bool, after: Player)
    ensures before == First && r == Ok && owned && after == Second
  {
    var s := new State();
    before := s.turn;
    assert HexoSets.AllIds() == {0, 1};
    r := s.Play(PickAction(Hexos.Hexo(0)));
    owned := s.hexos.HexosOf(First).Has(Hexos.Hexo(0));
    after := s.turn;
  }

  /** `after_pick_ends_proceeds_to_place`: once both pieces are picked the
      second player places first. */
  method AfterPicksProceedToPlace() returns (r1: Outcome, r2: Outcome, phase: CoreState.GamePhase, turn: Player)
    ensures r1 == Ok && r2 == Ok && phase == CoreState.Place && turn == Second
  {
    var s := new State();
    assert HexoSets.AllIds() == {0, 1};
    r1 := s.Play(PickAction(Hexos.Hexo(0)));
    r2 := s.Play(PickAction(Hexos.Hexo(1)));
    phase := s.phase;
    turn := s.turn;
  }

  /** `pick_twice_returns_error`. */
  method PickTwiceRefused() returns (r1: Outcome, r2: Outcome)
    ensures r1 == Ok && r2 == Err
  {
    var s := new State();
    r1 := s.Play(PickAction(Hexos.Hexo(0)));
    r2 := s.Play(PickAction(Hexos.Hexo(0)));
  }

  /** The state after the first player picks the straight piece and the
      second the L piece: the place phase, the second player to move, and
      an empty board. */
  ghost predicate ReadyToPlace(s: State)
    reads s, s.hexos.remaining, s.hexos.firstHand, s.hexos.secondHand, s.board, s.board.grid
  {
    && s.Valid() && s.phase == CoreState.Place && s.turn == Second
    && s.hexos.Owned(First) == {1} && s.hexos.Owned(Second) == {0}
    && forall x, y :: 0 <= x < Boards.Rows && 0 <= y < Boards.Cols ==> !s.board.grid[x, y]
  }

  /** A new game after the two picks the placement tests start with. */
  method StartPlacing() returns (s: State)
    ensures ReadyToPlace(s) && fresh(s) && fresh(s.board.grid)
    ensures fresh(s.hexos.remaining) && fresh(s.hexos.firstHand) && fresh(s.hexos.secondHand)
  {
    s := new State();
    assert HexoSets.AllIds() == {0, 1};
    var r := s.Play(PickAction(Hexos.Hexo(1)));
    assert r == Ok;
    r := s.Play(PickAction(Hexos.Hexo(0)));
    assert r == Ok;
  }

  /** The second player's first placement of the L piece, under a
      transform that keeps it on the board: accepted, and the board then
      holds exactly its cells. */
  method PlaceL(t: Transform) returns (s: State, r: Outcome)
    requires forall i :: 0 <= i < 6 ==> InBound(MTiles(MovedHexo(Hexos.Hexo(0), t))[i])
    ensures r == Ok && s.Valid() && s.hexos.Owned(First) == {1} && s.hexos.Owned(Second) == {}
    ensures s.turn == First && s.board.Valid() && fresh(s) && fresh(s.board.grid)
    ensures fresh(s.hexos.remaining) && fresh(s.hexos.firstHand) && fresh(s.hexos.secondHand)
    ensures forall x, y :: 0 <= x < Boards.Rows && 0 <= y < Boards.Cols ==>
      s.board.grid[x, y] == (Point(x, y) in MTiles(MovedHexo(Hexos.Hexo(0), t)))
    ensures s.phase == CoreState.Place <==> CanMove(s.hexos, s.board, First)
    ensures s.phase == CoreState.End <==> !CanMove(s.hexos, s.board, First)
    ensures s.phase == CoreState.End ==> s.winner == Some(Second)
  {
    s := StartPlacing();
    var m := MovedHexo(Hexos.Hexo(0), t);
    assert s.Legal(PlaceAction(m));
    r := s.Play(PlaceAction(m));
  }

  /** `player_place_show_on_board`: the L piece unmoved covers its own
      six cells. */
  method PlaceShowsOnBoard() returns (r: Outcome, covered: bool)
    ensures r == Ok && covered
  {
    var t := Default;
    assert MTiles(MovedHexo(Hexos.Hexo(0), t)) ==
      [Point(0, 0), Point(0, 1), Point(0, 2), Point(0, 3), Point(1, 0), Point(1, 1)];
    var s;
    s, r := PlaceL(t);
    covered := s.board.IsPlaced(Point(0, 0)) && s.board.IsPlaced(Point(0, 1)) &&
      s.board.IsPlaced(Point(0, 2)) && s.board.IsPlaced(Point(0, 3)) &&
      s.board.IsPlaced(Point(1, 0)) && s.board.IsPlaced(Point(1, 1));
  }

  /** `hexo_transform_flip`: mirrored and moved three columns on, the L
      piece covers row 0 up to column 3 and (1, 2), (1, 3). The older
      mirror, (x, y) -> (x, -y), is what makes these the cells. */
  method FlipShowsOnBoard() returns (r: Outcome, covered: bool)
    ensures r == Ok && covered
  {
    var t := NewTransform(true, 0, Point(0, 3));
    assert t == Transform(true, 0, Point(0, 3));
    assert MTiles(MovedHexo(Hexos.Hexo(0), t)) ==
      [Point(0, 3), Point(0, 2), Point(0, 1), Point(0, 0), Point(1, 3), Point(1, 2)];
    var s;
    s, r := PlaceL(t);
    covered := s.board.IsPlaced(Point(0, 0)) && s.board.IsPlaced(Point(0, 1)) &&
      s.board.IsPlaced(Point(0, 2)) && s.board.IsPlaced(Point(0, 3)) &&
      s.board.IsPlaced(Point(1, 2)) && s.board.IsPlaced(Point(1, 3));
  }

  /** `hexo_transform_rotate`: turned once and moved one column on, the L
      piece covers column 1 and (0, 0), (1, 0). */
  method RotateShowsOnBoard() returns (r: Outcome, covered: bool)
    ensures r == Ok && covered
  {
    var t := NewTransform(false, 1, Point(0, 1));
    assert t == Transform(false, 1, Point(0, 1));
    assert MTiles(MovedHexo(Hexos.Hexo(0), t)) ==
      [Point(0, 1), Point(1, 1), Point(2, 1), Point(3, 1), Point(0, 0), Point(1, 0)];
    var s;
    s, r := PlaceL(t);
    covered := s.board.IsPlaced(Point(0, 0)) && s.board.IsPlaced(Point(0, 1)) &&
      s.board.IsPlaced(Point(1, 0)) && s.board.IsPlaced(Point(1, 1)) &&
      s.board.IsPlaced(Point(2, 1)) && s.board.IsPlaced(Point(3, 1));
  }

  /** `hexo_transform_flip_rotate`: mirrored, turned twice and moved one
      row on, the L piece covers row 1 up to column 3 and (0, 0), (0, 1). */
  method FlipRotateShowsOnBoard() returns (r: Outcome, covered: bool)
    ensures r == Ok && covered
  {
    var t := NewTransform(true, 2, Point(1, 0));
    assert t == Transform(true, 2, Point(1, 0));
    assert MTiles(MovedHexo(Hexos.Hexo(0), t)) ==
      [Point(1, 0), Point(1, 1), Point(1, 2), Point(1, 3), Point(0, 0), Point(0, 1)];
    var s;
    s, r := PlaceL(t);
    covered := s.board.IsPlaced(Point(0, 0)) && s.board.IsPlaced(Point(0, 1)) &&
      s.board.IsPlaced(Point(1, 0)) && s.board.IsPlaced(Point(1, 1)) &&
      s.board.IsPlaced(Point(1, 2)) && s.board.IsPlaced(Point(1, 3));
  }

  /** `board_can_place_in_any` on the older board, first board: the
      answer is that of the board of `src/game/board.rs` holding the same
      cells. */
  method FirstBoardFits() returns (fits: bool)
    ensures fits
  {
    var b := new Board.FromCells(BoardTests.FirstCells);
    var c := new Boards.Board.FromCells(BoardTests.FirstCells, Boards.Cols);
    BoardTests.FirstCellsFit(c);
    FitsSomewhereAgree(b, c, Hexos.Hexo(0));
    fits := b.CanPlaceSomewhere(Hexos.Hexo(0));
  }

  /** The second board of the same test. */
  method SecondBoardFits() returns (fits: bool)
    ensures fits
  {
    var b := new Board.FromCells(BoardTests.SecondCells);
    var c := new Boards.Board.FromCells(BoardTests.SecondCells, Boards.Cols);
    BoardTests.SecondCellsFit(c);
    FitsSomewhereAgree(b, c, Hexos.Hexo(0));
    fits := b.CanPlaceSomewhere(Hexos.Hexo(0));
  }

  /** The third board of the same test, where the L piece fits nowhere. */
  method ThirdBoardBlocked() returns (fits: bool)
    ensures !fits
  {
    var b := new Board.FromCells(BoardTests.ThirdCells);
    var c := new Boards.Board.FromCells(BoardTests.ThirdCells, Boards.Cols);
    BoardTests.ThirdCellsBlocked(c);
    FitsSomewhereAgree(b, c, Hexos.Hexo(0));
    fits := b.CanPlaceSomewhere(Hexos.Hexo(0));
  }

  /** The straight piece lies along one line: along a row when turned an
      even number of times, along a column otherwise, running from its
      displacement one way or the other. */
  lemma StraightTiles(m: MovedHexo)
    requires m.hexo == Hexos.Hexo(1) && Reduced(m.transform)
    ensures var t := m.transform;
      var s := if (t.rotate == 0 || t.rotate == 1) != t.flipped then 1 else -1;
      forall k :: 0 <= k < 6 ==>
        MTiles(m)[k] == if t.rotate % 2 == 0 then Add(Point(0, s * k), t.displacement)
                        else Add(Point(s * k, 0), t.displacement)
  {
  }

  /** A column covered from top to bottom leaves no room for the straight
      piece: along a row it spans every column, and along a column it is
      longer than the board. */
  lemma StraightBlockedByColumn(b: Board, col: int)
    requires b.Valid() && 0 <= col < Boards.Cols
    requires forall x :: 0 <= x < Boards.Rows ==> b.grid[x, col]
    ensures !b.CanPlaceSomewhere(Hexos.Hexo(1))
  {
    forall i, x, y | 0 <= i < 8 && 0 <= x < Boards.Rows && 0 <= y < Boards.Cols
      ensures !b.CanPlace(MoveTo(AllOrbit(Hexos.Hexo(1))[i], Point(x, y)))
    {
      var m := MoveTo(AllOrbit(Hexos.Hexo(1))[i], Point(x, y));
      AllOrbitSpec(Hexos.Hexo(1));
      StraightTiles(m);
      var t := m.transform;
      var ts := MTiles(m);
      if t.rotate % 2 == 1 || ts[5].y < 0 || ts[5].y >= Boards.Cols {
        assert !InBound(ts[5]);
      } else if ts[5].y == y + 5 {
        assert ts[col] == Point(x, col);
        assert b.IsPlaced(ts[col]);
      } else {
        assert ts[5 - col] == Point(x, col);
        assert b.IsPlaced(ts[5 - col]);
      }
    }
  }

  /** The L piece turned once at (0, 3) lies on the board and covers
      column 3 from top to bottom. */
  lemma TurnedLCoversColumn(t: Transform)
    requires t == Transform(false, 1, Point(0, 3))
    ensures forall i :: 0 <= i < 6 ==> InBound(MTiles(MovedHexo(Hexos.Hexo(0), t))[i])
    ensures forall x :: 0 <= x < Boards.Rows ==> Point(x, 3) in MTiles(MovedHexo(Hexos.Hexo(0), t))
  {
    assert MTiles(MovedHexo(Hexos.Hexo(0), t)) ==
      [Point(0, 3), Point(1, 3), Point(2, 3), Point(3, 3), Point(0, 2), Point(1, 2)];
  }

  /** `when_can_not_place_goes_to_end_phase`: the L piece turned once at
      (0, 3) covers column 3, the first player's straight piece fits
      nowhere, and the game ends with the second player the winner. */
  method CannotPlaceEnds() returns (r: Outcome, phase: CoreState.GamePhase, winner: Option<Player>)
    ensures r == Ok && phase == CoreState.End && winner == Some(Second)
  {
    var t := NewTransform(false, 1, Point(0, 3));
    assert t == Transform(false, 1, Point(0, 3));
    TurnedLCoversColumn(t);
    var s;
    s, r := PlaceL(t);
    StraightBlockedByColumn(s.board, 3);
    phase := s.phase;
    winner := s.winner;
  }

  /** The L piece unmoved lies on the board, in rows 0 and 1. */
  lemma UprightLTiles()
    ensures forall i :: 0 <= i < 6 ==> InBound(MTiles(MovedHexo(Hexos.Hexo(0), Default))[i])
    ensures forall i :: 0 <= i < 6 ==> MTiles(MovedHexo(Hexos.Hexo(0), Default))[i].x < 2
  {
    assert MTiles(MovedHexo(Hexos.Hexo(0), Default)) ==
      [Point(0, 0), Point(0, 1), Point(0, 2), Point(0, 3), Point(1, 0), Point(1, 1)];
  }

  /** The straight piece fits along a free row 2. */
  lemma StraightFitsAlongRow(b: Board)
    requires b.Valid() && forall y :: 0 <= y < Boards.Cols ==> !b.grid[2, y]
    ensures b.CanPlaceSomewhere(Hexos.Hexo(1))
  {
    var m := MoveTo(AllOrbit(Hexos.Hexo(1))[0], Point(2, 0));
    assert MTiles(m) == [Point(2, 0), Point(2, 1), Point(2, 2), Point(2, 3), Point(2, 4), Point(2, 5)];
    assert b.CanPlace(m);
  }

  /** `when_can_place_continues`: after the L piece is placed at the
      origin the straight piece still fits along row 2, so the game goes
      on with the first player. */
  method CanPlaceContinues() returns (s: State, r: Outcome)
    ensures r == Ok && s.Valid() && s.phase == CoreState.Place && s.turn == First
    ensures fresh(s) && fresh(s.board.grid)
    ensures fresh(s.hexos.remaining) && fresh(s.hexos.firstHand) && fresh(s.hexos.secondHand)
    ensures s.hexos.Owned(First) == {1} && s.hexos.Owned(Second) == {}
    ensures forall y :: 0 <= y < Boards.Cols ==> !s.board.grid[2, y]
  {
    UprightLTiles();
    s, r := PlaceL(Default);
    StraightFitsAlongRow(s.board);
    assert CanMove(s.hexos, s.board, First) by {
      assert Hexos.Hexo(1).id in s.hexos.Owned(First);
    }
  }

  /** `when_run_out_of_tiles_goes_to_end_phase`: the first player places
      the straight piece along row 2, the second player's hand is empty,
      and the first player wins. */
  method RunOutEnds() returns (r1: Outcome, r2: Outcome, phase: CoreState.GamePhase, winner: Option<Player>)
    ensures r1 == Ok && r2 == Ok && phase == CoreState.End && winner == Some(First)
  {
    var s;
    s, r1 := CanPlaceContinues();
    var m := MovedHexo(Hexos.Hexo(1), NewTransform(false, 0, Point(2, 0)));
    assert m.transform == Transform(false, 0, Point(2, 0));
    assert MTiles(m) == [Point(2, 0), Point(2, 1), Point(2, 2), Point(2, 3), Point(2, 4), Point(2, 5)];
    assert s.Legal(PlaceAction(m));
    r2 := s.Play(PlaceAction(m));
    phase := s.phase;
    winner := s.winner;
  }
}
