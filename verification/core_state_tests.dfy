/** The games of the core's state tests, each played from a new state:
    the first player picks, then the second, and (in the placing tests)
    the second player, who holds the L piece, places it. */
module CoreStateTests {
  import opened Positions
  import opened Players
  import opened Hexos
  import opened HexoSets
  import opened Boards
  import opened Outcomes
  import opened CoreState

  /** A new state after the first player picks the straight piece: the
      second player to pick, the L piece left in the pool. */
  method FirstPicks() returns (s: State)
    ensures s.Valid() && fresh(s) && fresh(s.board.grid)
    ensures fresh(s.inventory.remaining) && fresh(s.inventory.firstHand) && fresh(s.inventory.secondHand)
    ensures s.phase == Pick && s.currentPlayer == Second && s.inventory.Remaining() == {0}
    ensures s.inventory.Owned(First) == {1} && s.inventory.Owned(Second) == {}
    ensures forall x, y :: 0 <= x < Cols && 0 <= y < Rows ==> !s.board.grid[x, y]
  {
    s := new State();
    assert AllIds() == {0, 1};
    var r := s.Play(PickAction(Hexo(1)));
    assert s.inventory.Remaining() == AllIds() - {1} == {0};
  }

  /** Then the second player picks the L piece: the place phase, the
      second player to move, an empty board. */
  method StartPlacing() returns (s: State)
    ensures ReadyToPlace(s) && fresh(s) && fresh(s.board.grid)
    ensures fresh(s.inventory.remaining) && fresh(s.inventory.firstHand) && fresh(s.inventory.secondHand)
  {
    s := FirstPicks();
    var r := s.Play(PickAction(Hexo(0)));
    assert r == Ok;
  }

  /** The state after both picks: the place phase, the second player to
      move with the L piece, the first holding the straight piece, and an
      empty board. */
  ghost predicate ReadyToPlace(s: State)
    reads s, s.inventory.remaining, s.inventory.firstHand, s.inventory.secondHand, s.board, s.board.grid
  {
    && s.Valid() && s.phase == Place && s.currentPlayer == Second
    && s.inventory.Owned(First) == {1} && s.inventory.Owned(Second) == {0}
    && forall x, y :: 0 <= x < Cols && 0 <= y < Rows ==> !s.board.grid[x, y]
  }

  /** The second player places the L piece somewhere on the empty board:
      the board then holds exactly its cells, and the game goes on exactly
      when the straight piece of the first player fits somewhere; if it
      does not, the second player wins. */
  method SecondPlaces(s: State, m: MovedHexo) returns (r: Outcome)
    requires ReadyToPlace(s) && m.rhexo.hexo == Hexo(0)
    requires forall i :: 0 <= i < 6 ==> s.board.InBound(MTiles(m)[i])
    modifies s, s.inventory.remaining, s.inventory.firstHand, s.inventory.secondHand, s.board.grid
    ensures r == Ok && s.Valid() && s.currentPlayer == First
    ensures s.inventory.Owned(First) == {1} && s.inventory.Owned(Second) == {}
    ensures forall x, y :: 0 <= x < Cols && 0 <= y < Rows ==> (s.board.grid[x, y] <==> Pos(x, y) in MTiles(m))
    ensures s.phase == (if s.board.CanPlaceSomewhere(Hexo(1)) then Place else End)
    ensures s.phase == End ==> s.Winner() == Some(Second)
  {
    assert s.Legal(PlaceAction(m));
    r := s.Play(PlaceAction(m));
    assert s.CanMove(First) <==> s.board.CanPlaceSomewhere(Hexo(1)) by {
      assert Hexo(1).id in s.inventory.Owned(First);
      assert forall h: Hexo :: h.id in s.inventory.Owned(First) ==> h == Hexo(1);
    }
  }

  /** `after_pick_adds_to_player_set`. */
  method AfterPickAddsToPlayerSet() returns (r: Outcome, phase: GamePhase, has: bool)
    ensures r == Ok && phase == Pick && has
  {
    var s := new State();
    r := s.Play(PickAction(Hexo(0)));
    assert 1 in s.inventory.Remaining();
    phase := s.phase;
    has := s.inventory.HexosOf(First).Has(Hexo(0));
  }

  /** `after_pick_next_turn`. */
  method AfterPickNextTurn() returns (before: Option<Player>, r: Outcome, phase: GamePhase, after: Option<Player>)
    ensures before == Some(First) && r == Ok && phase == Pick && after == Some(Second)
  {
    var s := new State();
    before := s.CurrentPlayer();
    r := s.Play(PickAction(Hexo(0)));
    assert 1 in s.inventory.Remaining();
    phase := s.phase;
    after := s.CurrentPlayer();
  }

  /** `after_pick_ends_proceeds_to_place`: once the pool is empty the
      second player places first. */
  method AfterPicksProceedToPlace() returns (r1: Outcome, r2: Outcome, phase: GamePhase, mover: Option<Player>)
    ensures r1 == Ok && r2 == Ok && phase == Place && mover == Some(Second)
  {
    var s := new State();
    r1 := s.Play(PickAction(Hexo(0)));
    r2 := s.Play(PickAction(Hexo(1)));
    assert s.inventory.Remaining() == {};
    phase := s.phase;
    mover := s.CurrentPlayer();
  }

  /** `pick_twice_returns_error`. */
  method PickTwiceRefused() returns (r1: Outcome, r2: Outcome)
    ensures r1 == Ok && r2 == Err
  {
    var s := new State();
    r1 := s.Play(PickAction(Hexo(0)));
    r2 := s.Play(PickAction(Hexo(0)));
  }

  /** `player_place_show_on_board`: the L piece unturned at the origin
      covers its six cells. */
  method PlaceShowsOnBoard() returns (r: Outcome, covered: bool)
    ensures r == Ok && covered
  {
    var s := StartPlacing();
    var m := MoveTo(ApplyTo(Hexo(0), Identity), Zero);
    UprightTiles(m);
    r := SecondPlaces(s, m);
    covered := s.board.IsPlaced(Pos(0, 0)) && s.board.IsPlaced(Pos(0, 1)) &&
      s.board.IsPlaced(Pos(0, 2)) && s.board.IsPlaced(Pos(0, 3)) &&
      s.board.IsPlaced(Pos(1, 0)) && s.board.IsPlaced(Pos(1, 1));
  }

  /** `hexo_transform_rotate`: one quarter turn, moved to (0, 1). */
  method RotatedPlacement() returns (r: Outcome, covered: bool)
    ensures r == Ok && covered
  {
    var s := StartPlacing();
    var m := MoveTo(ApplyTo(Hexo(0), NewTransform(false, 1)), Pos(0, 1));
    TurnedTiles(m, 1);
    r := SecondPlaces(s, m);
    covered := s.board.IsPlaced(Pos(0, 0)) && s.board.IsPlaced(Pos(0, 1)) &&
      s.board.IsPlaced(Pos(1, 0)) && s.board.IsPlaced(Pos(1, 1)) &&
      s.board.IsPlaced(Pos(2, 1)) && s.board.IsPlaced(Pos(3, 1));
  }

  /** `hexo_transform_flip` as the code stands: the mirror negates `x`,
      so the mirrored L moved to (0, 3) reaches x = -1 and the
      placement is refused. */
  method MirroredPlacementRefused() returns (r: Outcome)
    ensures r == Err
  {
    var s := StartPlacing();
    var t := NewTransform(true, 0);
    assert t == Transform(true, 0);
    var m := MoveTo(ApplyTo(Hexo(0), t), Pos(0, 3));
    assert MTiles(m)[4] == Pos(-1, 3);
    r := s.Play(PlaceAction(m));
  }

  /** `hexo_transform_flip_rotate` as the code stands: the L turned
      twice and mirrored, moved to (1, 0), reaches y = -1 and the
      placement is refused. */
  method MirroredTurnedPlacementRefused() returns (r: Outcome)
    ensures r == Err
  {
    var s := StartPlacing();
    var t := NewTransform(true, 2);
    assert t == Transform(true, 2);
    var m := MoveTo(ApplyTo(Hexo(0), t), Pos(1, 0));
    assert MTiles(m)[1] == Pos(1, -1);
    r := s.Play(PlaceAction(m));
  }

  /** `hexo_transform_flip` with the transform its checks call for: the
      six cells the test expects are those of the L turned twice and then
      mirrored, moved to (0, 3), which is the mirror of the older code
      (negating `y`) written in the core's terms. */
  method MirroredPlacementShowsOnBoard() returns (r: Outcome, covered: bool)
    ensures r == Ok && covered
  {
    var s := StartPlacing();
    var m := MoveTo(ApplyTo(Hexo(0), NewTransform(true, 2)), Pos(0, 3));
    MirroredTiles(m);
    r := SecondPlaces(s, m);
    covered := s.board.IsPlaced(Pos(0, 0)) && s.board.IsPlaced(Pos(0, 1)) &&
      s.board.IsPlaced(Pos(0, 2)) && s.board.IsPlaced(Pos(0, 3)) &&
      s.board.IsPlaced(Pos(1, 2)) && s.board.IsPlaced(Pos(1, 3));
  }

  /** `hexo_transform_flip_rotate` with the transform its checks call
      for: the cells it expects are those of the L mirrored without a
      turn, moved to (1, 0). */
  method MirroredTurnedPlacementShowsOnBoard() returns (r: Outcome, covered: bool)
    ensures r == Ok && covered
  {
    var s := StartPlacing();
    var m := MoveTo(ApplyTo(Hexo(0), NewTransform(true, 0)), Pos(1, 0));
    MirroredTurnedTiles(m);
    r := SecondPlaces(s, m);
    covered := s.board.IsPlaced(Pos(0, 0)) && s.board.IsPlaced(Pos(0, 1)) &&
      s.board.IsPlaced(Pos(1, 0)) && s.board.IsPlaced(Pos(1, 1)) &&
      s.board.IsPlaced(Pos(1, 2)) && s.board.IsPlaced(Pos(1, 3));
  }

  /** `when_can_not_place_goes_to_end_phase`: with the L piece at the
      origin every row has its first cell covered, the straight piece
      fits nowhere, and the second player wins. */
  method CannotPlaceEnds() returns (r: Outcome, phase: GamePhase, winner: Option<Player>)
    ensures r == Ok && phase == End && winner == Some(Second)
  {
    var s := StartPlacing();
    var m := MoveTo(ApplyTo(Hexo(0), Identity), Zero);
    UprightTiles(m);
    r := SecondPlaces(s, m);
    StraightBlocked(s.board);
    phase := s.phase;
    winner := s.Winner();
  }

  /** `when_run_out_of_tiles_goes_to_end_phase`: the first player places
      the straight piece along the free row, and the second player, whose
      hand is now empty, loses. */
  method RunOutEnds() returns (r1: Outcome, r2: Outcome, phase: GamePhase, winner: Option<Player>)
    ensures r1 == Ok && r2 == Ok && phase == End && winner == Some(First)
  {
    var s := StartPlacing();
    var m := MoveTo(ApplyTo(Hexo(0), NewTransform(false, 1)), Pos(0, 2));
    TurnedTiles(m, 2);
    r1 := SecondPlaces(s, m);
    StraightFitsOnRow(s.board);
    r2 := FirstPlacesStraight(s);
    phase := s.phase;
    winner := s.Winner();
  }

  /** The first player, whose only piece is the straight one, places it
      along a free row y = 0 while the second player's hand is empty:
      the game ends and the first player wins. */
  method FirstPlacesStraight(s: State) returns (r: Outcome)
    requires s.Valid() && s.phase == Place && s.currentPlayer == First
    requires s.inventory.Owned(First) == {1} && s.inventory.Owned(Second) == {}
    requires forall x :: 0 <= x < Cols ==> !s.board.grid[x, 0]
    modifies s, s.inventory.remaining, s.inventory.firstHand, s.inventory.secondHand, s.board.grid
    ensures r == Ok && s.phase == End && s.Winner() == Some(First)
  {
    var straight := MoveTo(ApplyTo(Hexo(1), NewTransform(false, 1)), Zero);
    StraightTiles(straight);
    assert s.Legal(PlaceAction(straight));
    r := s.Play(PlaceAction(straight));
  }

  /** `when_can_place_continues`: the L piece leaves the first row free,
      so the straight piece still fits and the game goes on. */
  method CanPlaceContinues() returns (r: Outcome, phase: GamePhase, winner: Option<Player>)
    ensures r == Ok && phase == Place && winner == None
  {
    var s := StartPlacing();
    var m := MoveTo(ApplyTo(Hexo(0), NewTransform(false, 1)), Pos(0, 3));
    TurnedTiles(m, 3);
    r := SecondPlaces(s, m);
    StraightFitsOnRow(s.board);
    phase := s.phase;
    winner := s.Winner();
  }

  /** The cells of the L piece unturned at the origin. */
  lemma UprightTiles(m: MovedHexo)
    requires m == MoveTo(ApplyTo(Hexo(0), Identity), Zero)
    ensures forall i :: 0 <= i < 6 ==> 0 <= MTiles(m)[i].x < 2 && 0 <= MTiles(m)[i].y < Rows
    ensures forall y :: 0 <= y < Rows ==> Pos(0, y) in MTiles(m)
    ensures Pos(0, 0) in MTiles(m) && Pos(0, 1) in MTiles(m) && Pos(0, 2) in MTiles(m)
    ensures Pos(0, 3) in MTiles(m) && Pos(1, 0) in MTiles(m) && Pos(1, 1) in MTiles(m)
  {
    assert MTiles(m) == [Pos(0, 0), Pos(0, 1), Pos(0, 2), Pos(0, 3), Pos(1, 0), Pos(1, 1)];
  }

  /** The cells of the L piece turned once and moved to (0, y): four along
      row y and two below. */
  lemma TurnedTiles(m: MovedHexo, y: int)
    requires m == MoveTo(ApplyTo(Hexo(0), NewTransform(false, 1)), Pos(0, y))
    ensures forall i :: 0 <= i < 6 ==> 0 <= MTiles(m)[i].x < 4 && y - 1 <= MTiles(m)[i].y <= y
    ensures forall p :: p in MTiles(m) ==> y - 1 <= p.y <= y
    ensures Pos(0, y) in MTiles(m) && Pos(1, y) in MTiles(m) && Pos(2, y) in MTiles(m)
    ensures Pos(3, y) in MTiles(m) && Pos(0, y - 1) in MTiles(m) && Pos(1, y - 1) in MTiles(m)
  {
    assert NewTransform(false, 1) == Transform(false, 1);
    assert MTiles(m) == [Pos(0, y), Pos(1, y), Pos(2, y), Pos(3, y), Pos(0, y - 1), Pos(1, y - 1)];
  }

  /** The cells of the L piece turned twice, mirrored and moved to
      (0, 3): the column x = 0 and two cells of x = 1. */
  lemma MirroredTiles(m: MovedHexo)
    requires m == MoveTo(ApplyTo(Hexo(0), NewTransform(true, 2)), Pos(0, 3))
    ensures MTiles(m) == [Pos(0, 3), Pos(0, 2), Pos(0, 1), Pos(0, 0), Pos(1, 3), Pos(1, 2)]
  {
    assert NewTransform(true, 2) == Transform(true, 2);
  }

  /** The cells of the L piece mirrored and moved to (1, 0): the column
      x = 1 and two cells of x = 0. */
  lemma MirroredTurnedTiles(m: MovedHexo)
    requires m == MoveTo(ApplyTo(Hexo(0), NewTransform(true, 0)), Pos(1, 0))
    ensures MTiles(m) == [Pos(1, 0), Pos(1, 1), Pos(1, 2), Pos(1, 3), Pos(0, 0), Pos(0, 1)]
  {
    assert NewTransform(true, 0) == Transform(true, 0);
  }

  /** The cells of the straight piece turned once at the origin: the row
      y = 0. */
  lemma StraightTiles(m: MovedHexo)
    requires m == MoveTo(ApplyTo(Hexo(1), NewTransform(false, 1)), Zero)
    ensures forall i :: 0 <= i < 6 ==> 0 <= MTiles(m)[i].x < Cols && MTiles(m)[i].y == 0
  {
    assert NewTransform(false, 1) == Transform(false, 1);
    assert MTiles(m) == [Pos(0, 0), Pos(1, 0), Pos(2, 0), Pos(3, 0), Pos(4, 0), Pos(5, 0)];
  }

  /** The straight piece needs six free cells in a line; a board of six
      columns and four rows whose cells at x = 0 are all covered has no
      such line. */
  lemma StraightBlocked(b: Board)
    requires b.grid.Length0 == Cols && b.grid.Length1 == Rows
    requires forall y :: 0 <= y < Rows ==> b.grid[0, y]
    ensures !b.CanPlaceSomewhere(Hexo(1))
  {
    forall i, x, y | 0 <= i < 8 && 0 <= x < Cols && 0 <= y < Rows
      ensures !(!b.grid[x, y] && b.CanPlace(MoveTo(AllOrbit(Hexo(1))[i], Pos(x, y))))
    {
      StraightEnds(i, x, y);
    }
  }

  /** The first and last tiles of the straight piece in each orientation
      of its orbit, anchored at (x, y). */
  lemma StraightEnds(i: int, x: int, y: int)
    requires 0 <= i < 8
    ensures MTiles(MoveTo(AllOrbit(Hexo(1))[i], Pos(x, y)))[0] == Pos(x, y)
    ensures MTiles(MoveTo(AllOrbit(Hexo(1))[i], Pos(x, y)))[5] ==
      if i == 0 || i == 4 then Pos(x, y + 5)
      else if i == 1 || i == 7 then Pos(x + 5, y)
      else if i == 2 || i == 6 then Pos(x, y - 5)
      else Pos(x - 5, y)
  {
    var r := AllOrbit(Hexo(1))[i];
    assert r.transform == Transform(i >= 4, i % 4);
    assert Tiles(Hexo(1))[0] == Pos(0, 0) && Tiles(Hexo(1))[5] == Pos(0, 5);
  }

  /** The straight piece turned once fits along a free row y = 0. */
  lemma StraightFitsOnRow(b: Board)
    requires b.grid.Length0 == Cols && b.grid.Length1 == Rows
    requires forall x :: 0 <= x < Cols ==> !b.grid[x, 0]
    ensures b.CanPlaceSomewhere(Hexo(1))
  {
    var m := MoveTo(AllOrbit(Hexo(1))[1], Pos(0, 0));
    assert AllOrbit(Hexo(1))[1] == RHexo(Hexo(1), Transform(false, 1));
    assert MTiles(m) == [Pos(0, 0), Pos(1, 0), Pos(2, 0), Pos(3, 0), Pos(4, 0), Pos(5, 0)];
    assert b.CanPlace(m);
  }
}
