/** The games of the older state's tests, played on the struct state, and
    the placement that shows the `_State` machine's place out of order.
    The board has `ROWS` = 4 rows (`x`) and `COLS` = 6 columns (`y`). */
module OldStateTests {
  import opened Positions
  import opened Players
  import opened Hexos
  import opened HexoSets
  import opened Boards
  import opened Outcomes
  import opened CoreState
  import opened OldState
  import CoreStateTests

  /** `after_pick_ends_proceeds_to_place`: once both pieces are picked the
      second player places first. */
  method AfterPicksProceedToPlace() returns (r1: Outcome, r2: Outcome, phase: GamePhase, turn: Player)
    ensures r1 == Ok && r2 == Ok && phase == GamePhase.Place && turn == Second
  {
    var g;
    g, r1 := FirstPicks(Hexo(0));
    r2 := g.Play(PickAction(Hexo(1)));
    phase := g.phase;
    turn := g.turn;
  }

  /** A new game after the first player picks `h`: the second player to
      pick, the other piece left in the pool, and an empty board. */
  method FirstPicks(h: Hexo) returns (g: Game, r: Outcome)
    requires ValidHexo(h)
    ensures r == Ok && g.Valid() && fresh(g) && fresh(g.board.grid)
    ensures fresh(g.hexos.remaining) && fresh(g.hexos.firstHand) && fresh(g.hexos.secondHand)
    ensures g.phase == Pick && g.turn == Second && g.hexos.Remaining() == {1 - h.id}
    ensures g.hexos.Owned(First) == {h.id} && g.hexos.Owned(Second) == {}
    ensures forall x, y :: 0 <= x < Rows && 0 <= y < Cols ==> !g.board.grid[x, y]
  {
    g := new Game();
    assert AllIds() == {0, 1} && h.id in AllIds();
    r := g.Play(PickAction(h));
    assert g.hexos.Remaining() == AllIds() - {h.id} == {1 - h.id};
  }

  /** `pick_twice_returns_error`. */
  method PickTwiceRefused() returns (r1: Outcome, r2: Outcome)
    ensures r1 == Ok && r2 == Err
  {
    var g := new Game();
    r1 := g.Play(PickAction(Hexo(0)));
    r2 := g.Play(PickAction(Hexo(0)));
  }

  /** `after_pick_adds_to_player_set`. */
  method AfterPickAddsToPlayerSet() returns (r: Outcome, phase: GamePhase, has: bool)
    ensures r == Ok && phase == Pick && has
  {
    var g := new Game();
    r := g.Play(PickAction(Hexo(0)));
    assert 1 in g.hexos.Remaining();
    phase := g.phase;
    has := g.hexos.HexosOf(First).Has(Hexo(0));
  }

  /** `after_pick_next_turn`. */
  method AfterPickNextTurn() returns (before: Player, r: Outcome, phase: GamePhase, after: Player)
    ensures before == First && r == Ok && phase == Pick && after == Second
  {
    var g := new Game();
    before := g.turn;
    r := g.Play(PickAction(Hexo(0)));
    assert 1 in g.hexos.Remaining();
    phase := g.phase;
    after := g.turn;
  }

  /** The state after the first player picks the straight piece and the
      second the L piece: the place phase, the second player to move, and
      an empty board. */
  ghost predicate ReadyToPlace(g: Game)
    reads g, g.hexos.remaining, g.hexos.firstHand, g.hexos.secondHand, g.board, g.board.grid
  {
    && g.Valid() && g.phase == GamePhase.Place && g.turn == Second
    && g.hexos.Owned(First) == {1} && g.hexos.Owned(Second) == {0}
    && forall x, y :: 0 <= x < Rows && 0 <= y < Cols ==> !g.board.grid[x, y]
  }

  /** A new game after the two picks of the run-out test. */
  method StartPlacing() returns (g: Game)
    ensures ReadyToPlace(g) && fresh(g) && fresh(g.board.grid)
    ensures fresh(g.hexos.remaining) && fresh(g.hexos.firstHand) && fresh(g.hexos.secondHand)
  {
    var r;
    g, r := FirstPicks(Hexo(1));
    r := g.Play(PickAction(Hexo(0)));
    assert r == Ok;
  }

  /** `when_run_out_of_tiles_goes_to_end_phase`: the second player places
      the L piece at the origin, the first player the straight piece along
      row 2, and the second player, whose hand is empty, loses. */
  method RunOutEnds() returns (r1: Outcome, r2: Outcome, phase: GamePhase, winner: Option<Player>)
    ensures r1 == Ok && r2 == Ok && phase == End && winner == Some(First)
  {
    var g := StartPlacing();
    r1 := SecondPlacesL(g);
    r2 := FirstPlacesStraight(g);
    phase := g.phase;
    winner := g.winner;
  }

  /** The second player places the L piece somewhere on the empty board:
      the board then holds exactly its cells, and the game goes on exactly
      when the first player's straight piece fits somewhere; if it does
      not, the second player wins. */
  method SecondPlaces(g: Game, m: MovedHexo) returns (r: Outcome)
    requires ReadyToPlace(g) && m.rhexo.hexo == Hexo(0)
    requires forall i :: 0 <= i < 6 ==> g.board.InBound(MTiles(m)[i])
    modifies g, g.hexos.remaining, g.hexos.firstHand, g.hexos.secondHand, g.board.grid
    ensures r == Ok && g.Valid() && g.turn == First
    ensures g.hexos.Owned(First) == {1} && g.hexos.Owned(Second) == {}
    ensures forall x, y :: 0 <= x < Rows && 0 <= y < Cols ==> (g.board.grid[x, y] <==> Pos(x, y) in MTiles(m))
    ensures g.phase == (if g.board.CanPlaceSomewhere(Hexo(1)) then GamePhase.Place else End)
    ensures g.phase == End ==> g.winner == Some(Second)
  {
    assert g.Legal(PlaceAction(m));
    r := g.Play(PlaceAction(m));
    assert CanMove(g.hexos, g.board, First) <==> g.board.CanPlaceSomewhere(Hexo(1)) by {
      assert Hexo(1).id in g.hexos.Owned(First);
      assert forall h: Hexo :: h.id in g.hexos.Owned(First) ==> h == Hexo(1);
    }
  }

  /** The second player places the L piece upright at the origin; the
      straight piece still fits along row 2, so the first player moves
      next. */
  method SecondPlacesL(g: Game) returns (r: Outcome)
    requires ReadyToPlace(g)
    modifies g, g.hexos.remaining, g.hexos.firstHand, g.hexos.secondHand, g.board.grid
    ensures r == Ok && g.Valid() && g.phase == GamePhase.Place && g.turn == First
    ensures g.hexos.Owned(First) == {1} && g.hexos.Owned(Second) == {}
    ensures forall y :: 0 <= y < Cols ==> !g.board.grid[2, y]
  {
    var m := MoveTo(ApplyTo(Hexo(0), Identity), Zero);
    UprightL(m);
    r := SecondPlaces(g, m);
    StraightFitsAlongRow(g.board);
  }

  /** `player_place_show_on_board`: the L piece unturned at the origin
      covers its six cells. */
  method PlaceShowsOnBoard() returns (r: Outcome, covered: bool)
    ensures r == Ok && covered
  {
    var g := StartPlacing();
    var m := MoveTo(ApplyTo(Hexo(0), Identity), Zero);
    CoreStateTests.UprightTiles(m);
    r := SecondPlaces(g, m);
    covered := g.board.IsPlaced(Pos(0, 0)) && g.board.IsPlaced(Pos(0, 1)) &&
      g.board.IsPlaced(Pos(0, 2)) && g.board.IsPlaced(Pos(0, 3)) &&
      g.board.IsPlaced(Pos(1, 0)) && g.board.IsPlaced(Pos(1, 1));
  }

  /** `hexo_transform_rotate`: one quarter turn, moved to (0, 1). */
  method RotatedPlacement() returns (r: Outcome, covered: bool)
    ensures r == Ok && covered
  {
    var g := StartPlacing();
    var m := MoveTo(ApplyTo(Hexo(0), NewTransform(false, 1)), Pos(0, 1));
    CoreStateTests.TurnedTiles(m, 1);
    r := SecondPlaces(g, m);
    covered := g.board.IsPlaced(Pos(0, 0)) && g.board.IsPlaced(Pos(0, 1)) &&
      g.board.IsPlaced(Pos(1, 0)) && g.board.IsPlaced(Pos(1, 1)) &&
      g.board.IsPlaced(Pos(2, 1)) && g.board.IsPlaced(Pos(3, 1));
  }

  /** `hexo_transform_flip` under the core's pieces, which this model
      assumes for a file whose own piece module is missing: the mirror
      negates `x`, the L moved to (0, 3) reaches x = -1, and the placement
      is refused. */
  method MirroredPlacementRefused() returns (r: Outcome)
    ensures r == Err
  {
    var g := StartPlacing();
    var t := NewTransform(true, 0);
    assert t == Transform(true, 0);
    var m := MoveTo(ApplyTo(Hexo(0), t), Pos(0, 3));
    assert MTiles(m)[4] == Pos(-1, 3);
    r := g.Play(PlaceAction(m));
  }

  /** `hexo_transform_flip` with the older flip, which negates `y`: in
      core terms the L turned twice and mirrored, moved to (0, 3). */
  method MirroredPlacementShowsOnBoard() returns (r: Outcome, covered: bool)
    ensures r == Ok && covered
  {
    var g := StartPlacing();
    var m := MoveTo(ApplyTo(Hexo(0), NewTransform(true, 2)), Pos(0, 3));
    CoreStateTests.MirroredTiles(m);
    r := SecondPlaces(g, m);
    covered := g.board.IsPlaced(Pos(0, 0)) && g.board.IsPlaced(Pos(0, 1)) &&
      g.board.IsPlaced(Pos(0, 2)) && g.board.IsPlaced(Pos(0, 3)) &&
      g.board.IsPlaced(Pos(1, 2)) && g.board.IsPlaced(Pos(1, 3));
  }

  /** `hexo_transform_flip_rotate` under the assumed core pieces: the L
      turned twice and mirrored, moved to (1, 0), reaches y = -1 and the
      placement is refused. */
  method MirroredTurnedPlacementRefused() returns (r: Outcome)
    ensures r == Err
  {
    var g := StartPlacing();
    var t := NewTransform(true, 2);
    assert t == Transform(true, 2);
    var m := MoveTo(ApplyTo(Hexo(0), t), Pos(1, 0));
    assert MTiles(m)[1] == Pos(1, -1);
    r := g.Play(PlaceAction(m));
  }

  /** `hexo_transform_flip_rotate` with the older flip: in core terms the
      L mirrored without a turn, moved to (1, 0). */
  method MirroredTurnedPlacementShowsOnBoard() returns (r: Outcome, covered: bool)
    ensures r == Ok && covered
  {
    var g := StartPlacing();
    var m := MoveTo(ApplyTo(Hexo(0), NewTransform(true, 0)), Pos(1, 0));
    CoreStateTests.MirroredTurnedTiles(m);
    r := SecondPlaces(g, m);
    covered := g.board.IsPlaced(Pos(0, 0)) && g.board.IsPlaced(Pos(0, 1)) &&
      g.board.IsPlaced(Pos(1, 0)) && g.board.IsPlaced(Pos(1, 1)) &&
      g.board.IsPlaced(Pos(1, 2)) && g.board.IsPlaced(Pos(1, 3));
  }

  /** `when_can_not_place_goes_to_end_phase`: the L piece turned once at
      (0, 3) covers column 3 from top to bottom, the straight piece fits
      nowhere, and the second player wins. */
  method CannotPlaceEnds() returns (r: Outcome, phase: GamePhase, winner: Option<Player>)
    ensures r == Ok && phase == End && winner == Some(Second)
  {
    var g := StartPlacing();
    var m := MoveTo(ApplyTo(Hexo(0), NewTransform(false, 1)), Pos(0, 3));
    CoreStateTests.TurnedTiles(m, 3);
    r := SecondPlaces(g, m);
    forall x | 0 <= x < Rows
      ensures g.board.grid[x, 3]
    {
      assert Pos(x, 3) in MTiles(m) by {
        assert x == 0 || x == 1 || x == 2 || x == 3;
      }
    }
    ColumnBlocksStraight(g.board);
    phase := g.phase;
    winner := g.winner;
  }

  /** `when_can_place_continues`: the L piece at the origin leaves row 2
      free, so the game goes on. */
  method CanPlaceContinues() returns (r: Outcome, phase: GamePhase, winner: Option<Player>)
    ensures r == Ok && phase == GamePhase.Place && winner == None
  {
    var g := StartPlacing();
    r := SecondPlacesL(g);
    phase := g.phase;
    winner := g.winner;
  }

  /** The first player, holding only the straight piece, places it along
      the free row 2 while the second player's hand is empty: the game
      ends and the first player wins. */
  method FirstPlacesStraight(g: Game) returns (r: Outcome)
    requires g.Valid() && g.phase == GamePhase.Place && g.turn == First
    requires g.hexos.Owned(First) == {1} && g.hexos.Owned(Second) == {}
    requires forall y :: 0 <= y < Cols ==> !g.board.grid[2, y]
    modifies g, g.hexos.remaining, g.hexos.firstHand, g.hexos.secondHand, g.board.grid
    ensures r == Ok && g.phase == End && g.winner == Some(First)
  {
    var straight := MoveTo(ApplyTo(Hexo(1), NewTransform(false, 0)), Pos(2, 0));
    StraightAlongRow(straight);
    assert g.Legal(PlaceAction(straight));
    r := g.Play(PlaceAction(straight));
  }

  /** The cells of the L piece upright at the origin: rows 0 and 1. */
  lemma UprightL(m: MovedHexo)
    requires m == MoveTo(ApplyTo(Hexo(0), Identity), Zero)
    ensures forall i :: 0 <= i < 6 ==> 0 <= MTiles(m)[i].x < 2 && 0 <= MTiles(m)[i].y < Cols
    ensures Pos(0, 0) in MTiles(m)
  {
    assert MTiles(m) == [Pos(0, 0), Pos(0, 1), Pos(0, 2), Pos(0, 3), Pos(1, 0), Pos(1, 1)];
  }

  /** The cells of the straight piece unturned at (2, 0): row 2. */
  lemma StraightAlongRow(m: MovedHexo)
    requires m == MoveTo(ApplyTo(Hexo(1), NewTransform(false, 0)), Pos(2, 0))
    ensures forall i :: 0 <= i < 6 ==> MTiles(m)[i].x == 2 && 0 <= MTiles(m)[i].y < Cols
  {
    assert NewTransform(false, 0) == Transform(false, 0);
    assert MTiles(m) == [Pos(2, 0), Pos(2, 1), Pos(2, 2), Pos(2, 3), Pos(2, 4), Pos(2, 5)];
  }

  /** The straight piece fits along a free row 2 of a `ROWS` by `COLS`
      board. */
  lemma StraightFitsAlongRow(b: Board)
    requires b.grid.Length0 == Rows && b.grid.Length1 == Cols
    requires forall y :: 0 <= y < Cols ==> !b.grid[2, y]
    ensures b.CanPlaceSomewhere(Hexo(1))
  {
    var m := MoveTo(AllOrbit(Hexo(1))[0], Pos(2, 0));
    assert AllOrbit(Hexo(1))[0] == RHexo(Hexo(1), Transform(false, 0));
    assert MTiles(m) == [Pos(2, 0), Pos(2, 1), Pos(2, 2), Pos(2, 3), Pos(2, 4), Pos(2, 5)];
    assert b.CanPlace(m);
  }

  /** The straight piece anchored at (x, y) in orientation `i` of its
      orbit: a line of six cells along `y` or along `x`, one way or the
      other. */
  lemma StraightLine(i: int, x: int, y: int)
    requires 0 <= i < 8
    ensures forall k :: 0 <= k < 6 ==>
      MTiles(MoveTo(AllOrbit(Hexo(1))[i], Pos(x, y)))[k] ==
        if i == 0 || i == 4 then Pos(x, y + k)
        else if i == 1 || i == 7 then Pos(x + k, y)
        else if i == 2 || i == 6 then Pos(x, y - k)
        else Pos(x - k, y)
  {
    var r := AllOrbit(Hexo(1))[i];
    assert r.transform == Transform(i >= 4, i % 4);
    assert Tiles(Hexo(1)) == [Pos(0, 0), Pos(0, 1), Pos(0, 2), Pos(0, 3), Pos(0, 4), Pos(0, 5)];
  }

  /** On a board of `ROWS` by `COLS` cells whose column 3 is covered, the
      straight piece fits nowhere: along `x` it is longer than the board,
      and along `y` it must cross column 3. */
  lemma ColumnBlocksStraight(b: Board)
    requires b.grid.Length0 == Rows && b.grid.Length1 == Cols
    requires forall x :: 0 <= x < Rows ==> b.grid[x, 3]
    ensures !b.CanPlaceSomewhere(Hexo(1))
  {
    forall i, x, y | 0 <= i < 8 && 0 <= x < Rows && 0 <= y < Cols
      ensures !(!b.grid[x, y] && b.CanPlace(MoveTo(AllOrbit(Hexo(1))[i], Pos(x, y))))
    {
      StraightLine(i, x, y);
      var ts := MTiles(MoveTo(AllOrbit(Hexo(1))[i], Pos(x, y)));
      if (i == 0 || i == 4) && y == 0 {
        assert ts[3] == Pos(x, 3);
      } else if (i == 2 || i == 6) && y == 5 {
        assert ts[2] == Pos(x, 3);
      } else {
        assert !b.InBound(ts[5]);
      }
    }
  }

  // ---- The `_State` machine ---------------------------------------------------

  /** A new machine after the first player picks the L piece and the
      second the straight piece: the place stage, the second player to
      move, and a new, empty board. */
  method MachinePlacing() returns (s: Machine)
    ensures s.Valid() && fresh(s) && s.stage.PlaceStage? && s.stage.current == Second
    ensures fresh(s.inventory.remaining) && fresh(s.inventory.firstHand) && fresh(s.inventory.secondHand)
    ensures fresh(s.stage.board) && fresh(s.stage.board.grid)
    ensures s.inventory.Owned(First) == {0} && s.inventory.Owned(Second) == {1}
    ensures forall x, y :: 0 <= x < Rows && 0 <= y < Cols ==> !s.stage.board.grid[x, y]
  {
    s := new Machine();
    assert AllIds() == {0, 1};
    var r := s.Play(PickAction(Hexo(0)));
    assert r == Ok;
    r := s.Play(PickAction(Hexo(1)));
    assert r == Ok;
  }

  /** A turn with `PlaceState::place` as written: the second player places
      the first player's L piece at the origin. The placement is refused, yet the
      cell (0, 0) is now covered. */
  method RefusedPlacementMarksBoard() returns (r: Outcome, covered: bool)
    ensures r == Err && covered
  {
    var s := MachinePlacing();
    var m := MoveTo(ApplyTo(Hexo(0), Identity), Zero);
    UprightL(m);
    assert s.stage.board.CanPlace(m);
    r := s.PlayAsWritten(PlaceAction(m));
    covered := s.stage.board.IsPlaced(Pos(0, 0));
  }

  /** With the ownership check first, the same placement is refused and
      the board stays empty. */
  method RefusedPlacementLeavesBoard() returns (r: Outcome, covered: bool)
    ensures r == Err && !covered
  {
    var s := MachinePlacing();
    var m := MoveTo(ApplyTo(Hexo(0), Identity), Zero);
    r := s.Play(PlaceAction(m));
    covered := s.stage.board.IsPlaced(Pos(0, 0));
  }
}
