/** The game state of the older game code (`src/game/state.rs`), which
    holds two versions of the same rules: the struct `State`, whose fields
    are updated in place (here `Game`), and the `_State` enum, which moves
    from stage to stage and builds the board only when placing starts
    (here `Machine`). Both use the board of `src/game/board.rs` with `ROWS`
    rows indexed by `x` and `COLS` columns indexed by `y`, and the piece
    types and the inventory of the core, which the older code repeats. */
module OldState {
  import opened Positions
  import opened Players
  import opened Hexos
  import opened HexoSets
  import opened Boards
  import opened Outcomes
  import opened CoreState

  /** The player `p` holds a piece that fits somewhere on `board`. */
  ghost predicate CanMove(inv: Inventory, board: Board, p: Player)
    reads inv.firstHand, inv.secondHand, board, board.grid
  {
    exists h :: ValidHexo(h) && h.id in inv.Owned(p) && board.CanPlaceSomewhere(h)
  }

  /** `current_player_can_place`, which the struct and the place stage
      write out alike: false for an empty hand, otherwise whether some
      piece of the hand, tried by increasing id, fits somewhere. */
  method PlayerCanPlace(inv: Inventory, board: Board, p: Player) returns (b: bool)
    requires inv.Valid()
    ensures b <==> CanMove(inv, board, p)
  {
    var hexos := inv.HexosOf(p);
    if hexos.IsEmpty() {
      return false;
    }
    var list := hexos.Iter();
    for i := 0 to |list|
      invariant forall j :: 0 <= j < i ==> !board.CanPlaceSomewhere(list[j])
    {
      assert list[i] in list;
      if board.CanPlaceSomewhere(list[i]) {
        return true;
      }
    }
    forall h | ValidHexo(h) && h.id in inv.Owned(p)
      ensures !board.CanPlaceSomewhere(h)
    {
      assert h in list;
    }
    return false;
  }

  // ---- The struct `State` -----------------------------------------------------

  class Game {
    var phase: GamePhase
    const board: Board
    var turn: Player
    /** `remaining_hexos` and `player_hexos`. */
    const hexos: Inventory
    var winner: Option<Player>

    /** The sets are valid and the board has `ROWS` by `COLS` cells. */
    ghost predicate WellFormed()
      reads hexos.remaining, hexos.firstHand, hexos.secondHand, board
    {
      hexos.Valid() && board.grid.Length0 == Rows && board.grid.Length1 == Cols
    }

    /** What every reachable state keeps: the pick phase is balanced, the
        pool is empty after it, and a winner is recorded exactly when the
        game is over, the opponent of the player who could not move. */
    ghost predicate Valid()
      reads this, hexos.remaining, hexos.firstHand, hexos.secondHand, board
    {
      && WellFormed()
      && (phase == Pick ==> Balanced(hexos.Remaining(), hexos.Owned(First), hexos.Owned(Second), turn))
      && (phase != Pick ==> hexos.Remaining() == {})
      && winner == (if phase == End then Some(Other(turn)) else None)
    }

    /** Twice the pool and once each hand: what is left to play. */
    ghost function Measure(): nat
      reads hexos.remaining, hexos.firstHand, hexos.secondHand
    {
      2 * |hexos.Remaining()| + |hexos.Owned(First)| + |hexos.Owned(Second)|
    }

    /** The effect of an accepted pick: the piece leaves the pool for the
        mover's hand, and the other player picks next unless the pool is
        empty, when the second player starts placing. */
    twostate predicate Picked(h: Hexo)
      reads this, hexos.remaining, hexos.firstHand, hexos.secondHand
    {
      && hexos.Remaining() == old(hexos.Remaining()) - {h.id}
      && hexos.Owned(old(turn)) == old(hexos.Owned(turn)) + {h.id}
      && hexos.Owned(Other(old(turn))) == old(hexos.Owned(Other(turn)))
      && (if hexos.Remaining() == {} then phase == Place && turn == Second
          else phase == Pick && turn == Other(old(turn)))
    }

    /** The effect of an accepted placement: the board gains exactly the
        piece's cells, the piece leaves the mover's hand, and the other
        player moves next if something of theirs fits; otherwise the game
        is over and the mover has won. */
    twostate predicate Placed(m: MovedHexo)
      requires old(WellFormed()) && WellFormed() && ValidHexo(m.rhexo.hexo)
      reads this, hexos.remaining, hexos.firstHand, hexos.secondHand, board, board.grid
    {
      && (forall x, y :: 0 <= x < Rows && 0 <= y < Cols ==>
            board.grid[x, y] == (old(board.grid[x, y]) || Pos(x, y) in MTiles(m)))
      && hexos.Owned(old(turn)) == old(hexos.Owned(turn)) - {m.rhexo.hexo.id}
      && hexos.Owned(Other(old(turn))) == old(hexos.Owned(Other(turn)))
      && turn == Other(old(turn))
      && (phase == Place <==> CanMove(hexos, board, turn))
      && (phase == End <==> !CanMove(hexos, board, turn))
      && (phase == End ==> winner == Some(old(turn)))
    }

    /** `State::new`: the pick phase, the first player to move, every
        piece in the pool, empty hands, an empty board and no winner. */
    constructor ()
      ensures Valid() && fresh(hexos) && fresh(board) && fresh(board.grid)
      ensures fresh(hexos.remaining) && fresh(hexos.firstHand) && fresh(hexos.secondHand)
      ensures phase == Pick && turn == First && winner == None
      ensures hexos.Remaining() == AllIds() && hexos.Owned(First) == {} && hexos.Owned(Second) == {}
      ensures forall x, y :: 0 <= x < Rows && 0 <= y < Cols ==> !board.grid[x, y]
    {
      board := new Board(Rows, Cols);
      phase := Pick;
      turn := First;
      hexos := new Inventory();
      winner := None;
    }

    /** `owner_of`: asks the first player's set, then the second's; since
        they are disjoint the answer is the one holder, if any. */
    function OwnerOf(h: Hexo): (owner: Option<Player>)
      requires WellFormed() && ValidHexo(h)
      reads hexos.remaining, hexos.firstHand, hexos.secondHand, board
      ensures owner == None <==> h.id !in hexos.Owned(First) && h.id !in hexos.Owned(Second)
      ensures owner.Some? ==> h.id in hexos.Owned(owner.value) && h.id !in hexos.Owned(Other(owner.value))
    {
      if hexos.firstHand.Has(h) then Some(First)
      else if hexos.secondHand.Has(h) then Some(Second)
      else None
    }

    /** The action is accepted: its kind matches the phase, a picked piece
        is in the pool, and a placed piece belongs to the player to move
        and fits. */
    ghost predicate Legal(a: Action)
      requires ValidAction(a)
      reads this, hexos.remaining, hexos.firstHand, hexos.secondHand, board, board.grid
    {
      match a
      case PickAction(h) => phase == Pick && h.id in hexos.Remaining()
      case PlaceAction(m) =>
        phase == Place && m.rhexo.hexo.id in hexos.Owned(turn) && board.CanPlace(m)
    }

    /** `play`: an action that is not legal is refused and changes
        nothing; a legal one has the effect of its kind, after which what
        is left to play has shrunk. */
    method Play(a: Action) returns (r: Outcome)
      requires Valid() && ValidAction(a)
      modifies this, hexos.remaining, hexos.firstHand, hexos.secondHand, board.grid
      ensures Valid()
      ensures r == Ok <==> old(Legal(a))
      ensures r == Err ==> phase == old(phase) && turn == old(turn) && winner == old(winner)
      ensures r == Err ==> unchanged(hexos.remaining, hexos.firstHand, hexos.secondHand, board.grid)
      ensures r == Ok && a.PickAction? ==> Picked(a.hexo) && unchanged(board.grid)
      ensures r == Ok && a.PlaceAction? ==> Placed(a.moved)
      ensures r == Ok ==> Measure() < old(Measure())
    {
      match (phase, a) {
        case (Pick, PickAction(h)) => r := PickHexo(h);
        case (Place, PlaceAction(m)) => r := PlaceHexo(m);
        case _ => r := Err;
      }
    }

    /** `pick`, called in the pick phase only: refused, changing nothing,
        unless the piece is in the pool; otherwise moves it to the mover's
        hand (the inventory's `add` is the same three steps) and calls
        `next`. */
    method PickHexo(h: Hexo) returns (r: Outcome)
      requires Valid() && phase == Pick && ValidHexo(h)
      modifies this, hexos.remaining, hexos.firstHand, hexos.secondHand
      ensures Valid()
      ensures r == Ok <==> h.id in old(hexos.Remaining())
      ensures r == Err ==> phase == old(phase) && turn == old(turn) && winner == old(winner)
      ensures r == Err ==> unchanged(hexos.remaining, hexos.firstHand, hexos.secondHand)
      ensures r == Ok ==> Picked(h)
      ensures r == Ok ==> Measure() < old(Measure())
    {
      ghost var pool := hexos.Remaining();
      ghost var mine := hexos.Owned(turn);
      r := TakePick(h);
      if r == Err {
        return;
      }
      PickKeepsBalance(pool, old(hexos.Owned(First)), old(hexos.Owned(Second)), old(turn), h.id);
      MoveCounts(pool, mine, h.id);
      Next();
    }

    /** The part of `pick` before `next`: the pool check, then the move
        from the pool to the mover's hand. */
    method TakePick(h: Hexo) returns (r: Outcome)
      requires WellFormed() && ValidHexo(h)
      modifies hexos.remaining, hexos.HexosOf(turn)
      ensures WellFormed()
      ensures r == Ok <==> h.id in old(hexos.Remaining())
      ensures r == Ok ==> (hexos.Remaining() == old(hexos.Remaining()) - {h.id} &&
        hexos.Owned(turn) == old(hexos.Owned(turn)) + {h.id})
      ensures r == Err ==> unchanged(hexos.remaining, hexos.firstHand, hexos.secondHand)
      ensures hexos.Owned(Other(turn)) == old(hexos.Owned(Other(turn)))
    {
      r := hexos.Add(turn, h);
    }

    /** `place`, called in the place phase only: refused, changing
        nothing, unless the mover holds the piece, then unless it fits;
        otherwise it covers its cells, leaves the hand, and `next` is
        called. */
    method PlaceHexo(m: MovedHexo) returns (r: Outcome)
      requires Valid() && phase == Place && ValidHexo(m.rhexo.hexo)
      modifies this, hexos.firstHand, hexos.secondHand, board.grid
      ensures Valid()
      ensures r == Ok <==> m.rhexo.hexo.id in old(hexos.Owned(turn)) && old(board.CanPlace(m))
      ensures r == Err ==> phase == old(phase) && turn == old(turn) && winner == old(winner)
      ensures r == Err ==> unchanged(hexos.firstHand, hexos.secondHand, board.grid)
      ensures r == Ok ==> Placed(m)
      ensures r == Ok ==> Measure() < old(Measure())
    {
      ghost var mine := hexos.Owned(turn);
      r := TakePlace(m);
      if r == Err {
        return;
      }
      MoveCounts(mine, {}, m.rhexo.hexo.id);
      Next();
    }

    /** The part of `place` before `next`: the ownership check, the
        board's `place`, then the removal from the hand. */
    method TakePlace(m: MovedHexo) returns (r: Outcome)
      requires WellFormed() && ValidHexo(m.rhexo.hexo)
      modifies hexos.HexosOf(turn), board.grid
      ensures WellFormed()
      ensures r == Ok <==> m.rhexo.hexo.id in old(hexos.Owned(turn)) && old(board.CanPlace(m))
      ensures r == Err ==> unchanged(hexos.HexosOf(turn), board.grid)
      ensures r == Ok ==>
        && (forall x, y :: 0 <= x < Rows && 0 <= y < Cols ==>
              board.grid[x, y] == (old(board.grid[x, y]) || Pos(x, y) in MTiles(m)))
        && hexos.Owned(turn) == old(hexos.Owned(turn)) - {m.rhexo.hexo.id}
      ensures hexos.Owned(Other(turn)) == old(hexos.Owned(Other(turn)))
      ensures hexos.Remaining() == old(hexos.Remaining())
    {
      if !hexos.HexosOf(turn).Has(m.rhexo.hexo) {
        return Err;
      }
      r := board.Place(PlacedHexo(m, turn));
      if r == Err {
        return;
      }
      r := hexos.Remove(turn, m.rhexo.hexo);
    }

    /** `next`, which panics once the game is over. After a pick the other
        player picks, unless the pool is empty, when the second player
        starts placing. After a placement the other player moves; if
        nothing of theirs fits the game ends and the player before them
        wins. */
    method Next()
      requires WellFormed() && phase != End
      modifies this
      ensures old(phase) == Pick ==> winner == old(winner)
      ensures old(phase) == Pick ==>
        if hexos.Remaining() == {} then phase == Place && turn == Second
        else phase == Pick && turn == Other(old(turn))
      ensures old(phase) == Place ==> turn == Other(old(turn))
      ensures old(phase) == Place ==> (phase == Place <==> CanMove(hexos, board, turn))
      ensures old(phase) == Place ==> (phase == End <==> !CanMove(hexos, board, turn))
      ensures old(phase) == Place && phase == Place ==> winner == old(winner)
      ensures old(phase) == Place && phase == End ==> winner == Some(Other(turn)) && winner == Some(old(turn))
    {
      match phase {
        case Pick =>
          if hexos.remaining.IsEmpty() {
            phase := Place;
            turn := Second;
          } else {
            turn := Other(turn);
          }
        case Place =>
          turn := Other(turn);
          var canPlace := PlayerCanPlace(hexos, board, turn);
          if !canPlace {
            phase := End;
            winner := Some(Other(turn));
            OtherInvolution(old(turn));
          }
      }
    }
  }

  // ---- The `_State` enum ------------------------------------------------------

  /** The stages of `_State`: a pick stage knows only whose turn it is; the
      place stage also owns the board, which the end stage keeps together
      with the winner. (The transient `_Moved` variant, which exists only
      while `next` swaps one stage for the next, never shows.) */
  datatype Stage =
    | PickStage(current: Player)
    | PlaceStage(current: Player, board: Board)
    | EndStage(winner: Player, board: Board)

  class Machine {
    var stage: Stage
    /** The inventory, handed on from stage to stage. */
    const inventory: Inventory

    /** The board of the stage, if it has one. */
    ghost function BoardFrame(): set<object>
      reads this
    {
      if stage.PickStage? then {} else {stage.board}
    }

    /** The cells of that board. */
    ghost function GridFrame(): set<object>
      reads this, BoardFrame()
    {
      if stage.PickStage? then {} else {stage.board.grid}
    }

    /** The inventory is valid; picking is balanced; once placing starts
        the pool is empty and the board has `ROWS` by `COLS` cells. */
    ghost predicate Valid()
      reads this, inventory.remaining, inventory.firstHand, inventory.secondHand, BoardFrame()
    {
      && inventory.Valid()
      && match stage
         case PickStage(p) =>
           Balanced(inventory.Remaining(), inventory.Owned(First), inventory.Owned(Second), p)
         case PlaceStage(_, b) =>
           inventory.Remaining() == {} && b.grid.Length0 == Rows && b.grid.Length1 == Cols
         case EndStage(_, b) =>
           inventory.Remaining() == {} && b.grid.Length0 == Rows && b.grid.Length1 == Cols
    }

    /** Twice the pool and once each hand. */
    ghost function Measure(): nat
      reads inventory.remaining, inventory.firstHand, inventory.secondHand
    {
      2 * |inventory.Remaining()| + |inventory.Owned(First)| + |inventory.Owned(Second)|
    }

    /** `_State::new`: the pick stage with the first player to move, every
        piece in the pool and empty hands; there is no board yet. */
    constructor ()
      ensures Valid() && stage == PickStage(First) && fresh(inventory)
      ensures fresh(inventory.remaining) && fresh(inventory.firstHand) && fresh(inventory.secondHand)
      ensures inventory.Remaining() == AllIds()
      ensures inventory.Owned(First) == {} && inventory.Owned(Second) == {}
    {
      stage := PickStage(First);
      inventory := new Inventory();
    }

    /** `phase`: the phase each stage stands for. */
    function Phase(): (ph: GamePhase)
      reads this
      ensures ph == Pick <==> stage.PickStage?
      ensures ph == GamePhase.Place <==> stage.PlaceStage?
      ensures ph == End <==> stage.EndStage?
    {
      match stage
      case PickStage(_) => Pick
      case PlaceStage(_, _) => GamePhase.Place
      case EndStage(_, _) => End
    }

    /** `current_player`: nobody once the game is over. */
    function CurrentPlayer(): (p: Option<Player>)
      reads this
      ensures p == None <==> stage.EndStage?
      ensures p.Some? ==> p.value == stage.current
    {
      if stage.EndStage? then None else Some(stage.current)
    }

    /** The action is accepted: its kind matches the stage, a picked piece
        is in the pool, and a placed piece belongs to the player to move
        and fits. */
    ghost predicate Legal(a: Action)
      requires ValidAction(a)
      reads this, inventory.remaining, inventory.firstHand, inventory.secondHand, BoardFrame(), GridFrame()
    {
      match a
      case PickAction(h) => stage.PickStage? && h.id in inventory.Remaining()
      case PlaceAction(m) =>
        stage.PlaceStage? && m.rhexo.hexo.id in inventory.Owned(stage.current) && stage.board.CanPlace(m)
    }

    /** The effect of an accepted pick: the piece leaves the pool for the
        mover's hand; the other player picks next unless the pool is empty,
        when the second player starts placing on a new, empty board. */
    twostate predicate Picked(h: Hexo)
      requires old(stage).PickStage?
      reads this, inventory.remaining, inventory.firstHand, inventory.secondHand, BoardFrame(), GridFrame()
    {
      && inventory.Remaining() == old(inventory.Remaining()) - {h.id}
      && inventory.Owned(old(stage).current) == old(inventory.Owned(stage.current)) + {h.id}
      && inventory.Owned(Other(old(stage).current)) == old(inventory.Owned(Other(stage.current)))
      && if inventory.Remaining() == {} then
           && stage.PlaceStage? && stage.current == Second
           && fresh(stage.board) && fresh(stage.board.grid)
           && stage.board.grid.Length0 == Rows && stage.board.grid.Length1 == Cols
           && forall x, y :: 0 <= x < Rows && 0 <= y < Cols ==> !stage.board.grid[x, y]
         else
           stage == PickStage(Other(old(stage).current))
    }

    /** The effect of an accepted placement: the board gains exactly the
        piece's cells, the piece leaves the mover's hand, and the other
        player moves next on the same board if something of theirs fits;
        otherwise the game ends with the mover as the winner. */
    twostate predicate Placed(m: MovedHexo)
      requires old(stage).PlaceStage? && old(Valid()) && ValidHexo(m.rhexo.hexo)
      reads this, inventory.remaining, inventory.firstHand, inventory.secondHand, BoardFrame(), GridFrame()
    {
      var p, b := old(stage).current, old(stage).board;
      && !stage.PickStage? && stage.board == b && b.grid == old(b.grid)
      && (forall x, y :: 0 <= x < Rows && 0 <= y < Cols ==>
            b.grid[x, y] == (old(b.grid[x, y]) || Pos(x, y) in MTiles(m)))
      && inventory.Owned(p) == old(inventory.Owned(p)) - {m.rhexo.hexo.id}
      && inventory.Owned(Other(p)) == old(inventory.Owned(Other(p)))
      && stage == if CanMove(inventory, b, Other(p)) then PlaceStage(Other(p), b) else EndStage(p, b)
    }

    /** `play`: an action whose kind does not match the stage, or that the
        stage refuses, changes nothing; otherwise its effect is followed by
        `next`, and what is left to play shrinks. */
    method Play(a: Action) returns (r: Outcome)
      requires Valid() && ValidAction(a)
      modifies this, inventory.remaining, inventory.firstHand, inventory.secondHand, GridFrame()
      ensures Valid()
      ensures r == Ok <==> old(Legal(a))
      ensures r == Err ==> stage == old(stage)
      ensures r == Err ==> unchanged(inventory.remaining, inventory.firstHand, inventory.secondHand)
      ensures r == Err ==> unchanged(old(GridFrame()))
      ensures r == Ok && a.PickAction? ==> old(stage).PickStage? && Picked(a.hexo)
      ensures r == Ok && a.PlaceAction? ==> old(stage).PlaceStage? && Placed(a.moved)
      ensures r == Ok ==> Measure() < old(Measure())
    {
      match (stage, a) {
        case (PickStage(_), PickAction(h)) => r := PickTurn(h);
        case (PlaceStage(_, _), PlaceAction(m)) => r := PlaceTurn(m);
        case _ => r := Err;
      }
    }

    /** `play` in the pick stage: `PickState::pick`, the inventory's `add`
        for the player to move, then `next` if it succeeded. */
    method PickTurn(h: Hexo) returns (r: Outcome)
      requires Valid() && stage.PickStage? && ValidHexo(h)
      modifies this, inventory.remaining, inventory.firstHand, inventory.secondHand
      ensures Valid()
      ensures r == Ok <==> h.id in old(inventory.Remaining())
      ensures r == Err ==> stage == old(stage)
      ensures r == Err ==> unchanged(inventory.remaining, inventory.firstHand, inventory.secondHand)
      ensures r == Ok ==> Picked(h)
      ensures r == Ok ==> Measure() < old(Measure())
    {
      var p := stage.current;
      ghost var pool := inventory.Remaining();
      ghost var mine := inventory.Owned(p);
      r := inventory.Add(p, h);
      if r == Err {
        return;
      }
      PickKeepsBalance(pool, old(inventory.Owned(First)), old(inventory.Owned(Second)), p, h.id);
      MoveCounts(pool, mine, h.id);
      Next();
    }

    /** `play` in the place stage: `place`, then `next` if it succeeded. */
    method PlaceTurn(m: MovedHexo) returns (r: Outcome)
      requires Valid() && stage.PlaceStage? && ValidHexo(m.rhexo.hexo)
      modifies this, inventory.firstHand, inventory.secondHand, stage.board.grid
      ensures Valid()
      ensures r == Ok <==>
        m.rhexo.hexo.id in old(inventory.Owned(stage.current)) && old(stage.board.CanPlace(m))
      ensures r == Err ==> stage == old(stage)
      ensures r == Err ==> unchanged(inventory.firstHand, inventory.secondHand, old(stage).board.grid)
      ensures r == Ok ==> Placed(m)
      ensures r == Ok ==> Measure() < old(Measure())
    {
      ghost var mine := inventory.Owned(stage.current);
      r := Place(m);
      if r == Err {
        return;
      }
      MoveCounts(mine, {}, m.rhexo.hexo.id);
      Next();
    }

    /** `play` as written: the same dispatch as `Play`, with the place
        stage's `place` as written, so a refused placement of a piece that
        fits but is not the mover's leaves its cells covered; every other
        refusal changes nothing. */
    method PlayAsWritten(a: Action) returns (r: Outcome)
      requires Valid() && ValidAction(a)
      modifies this, inventory.remaining, inventory.firstHand, inventory.secondHand, GridFrame()
      ensures Valid()
      ensures r == Ok <==> old(Legal(a))
      ensures r == Err ==> stage == old(stage)
      ensures r == Err ==> unchanged(inventory.remaining, inventory.firstHand, inventory.secondHand)
      ensures r == Err && a.PlaceAction? && old(stage).PlaceStage? && old(stage.board.CanPlace(a.moved)) ==>
        forall x, y :: 0 <= x < Rows && 0 <= y < Cols ==>
          stage.board.grid[x, y] == (old(stage.board.grid[x, y]) || Pos(x, y) in MTiles(a.moved))
      ensures r == Err && !(a.PlaceAction? && old(stage).PlaceStage? && old(stage.board.CanPlace(a.moved))) ==>
        unchanged(old(GridFrame()))
      ensures r == Ok && a.PickAction? ==> old(stage).PickStage? && Picked(a.hexo)
      ensures r == Ok && a.PlaceAction? ==> old(stage).PlaceStage? && Placed(a.moved)
      ensures r == Ok ==> Measure() < old(Measure())
    {
      match (stage, a) {
        case (PickStage(_), PickAction(h)) => r := PickTurn(h);
        case (PlaceStage(_, _), PlaceAction(m)) => r := PlaceTurnAsWritten(m);
        case _ => r := Err;
      }
    }

    /** `play` in the place stage as written: `place` as written, then
        `next` if it succeeded. A refusal keeps the stage and the hands,
        but covers the piece's cells whenever the piece fits. */
    method PlaceTurnAsWritten(m: MovedHexo) returns (r: Outcome)
      requires Valid() && stage.PlaceStage? && ValidHexo(m.rhexo.hexo)
      modifies this, inventory.firstHand, inventory.secondHand, stage.board.grid
      ensures Valid()
      ensures r == Ok <==>
        m.rhexo.hexo.id in old(inventory.Owned(stage.current)) && old(stage.board.CanPlace(m))
      ensures r == Err ==> stage == old(stage)
      ensures r == Err ==> unchanged(inventory.firstHand, inventory.secondHand)
      ensures r == Err && old(stage.board.CanPlace(m)) ==> forall x, y :: 0 <= x < Rows && 0 <= y < Cols ==>
        stage.board.grid[x, y] == (old(stage.board.grid[x, y]) || Pos(x, y) in MTiles(m))
      ensures !old(stage.board.CanPlace(m)) ==> unchanged(old(stage).board.grid)
      ensures r == Ok ==> Placed(m)
      ensures r == Ok ==> Measure() < old(Measure())
    {
      ghost var mine := inventory.Owned(stage.current);
      r := PlaceAsWritten(m);
      if r == Err {
        return;
      }
      MoveCounts(mine, {}, m.rhexo.hexo.id);
      Next();
    }

    /** `PlaceState::place` as written: the board's `place` comes first,
        then the inventory's `remove`. A piece that fits but is not the
        mover's is refused only after its cells have been covered. */
    method PlaceAsWritten(m: MovedHexo) returns (r: Outcome)
      requires Valid() && stage.PlaceStage? && ValidHexo(m.rhexo.hexo)
      modifies inventory.HexosOf(stage.current), stage.board.grid
      ensures Valid()
      ensures r == Ok <==>
        old(stage.board.CanPlace(m)) && m.rhexo.hexo.id in old(inventory.Owned(stage.current))
      ensures old(stage.board.CanPlace(m)) ==> forall x, y :: 0 <= x < Rows && 0 <= y < Cols ==>
        stage.board.grid[x, y] == (old(stage.board.grid[x, y]) || Pos(x, y) in MTiles(m))
      ensures !old(stage.board.CanPlace(m)) ==> unchanged(stage.board.grid)
      ensures r == Err ==> unchanged(inventory.HexosOf(stage.current))
      ensures r == Ok ==> inventory.Owned(stage.current) == old(inventory.Owned(stage.current)) - {m.rhexo.hexo.id}
      ensures inventory.Owned(Other(stage.current)) == old(inventory.Owned(Other(stage.current)))
    {
      r := stage.board.Place(PlacedHexo(m, stage.current));
      if r == Err {
        return;
      }
      r := inventory.Remove(stage.current, m.rhexo.hexo);
    }

    /** `PlaceState::place` with the ownership check first, as the struct
        `State` does it: a refusal, for either reason, changes nothing;
        otherwise the piece covers exactly its cells and leaves the hand. */
    method Place(m: MovedHexo) returns (r: Outcome)
      requires Valid() && stage.PlaceStage? && ValidHexo(m.rhexo.hexo)
      modifies inventory.HexosOf(stage.current), stage.board.grid
      ensures Valid()
      ensures r == Ok <==>
        m.rhexo.hexo.id in old(inventory.Owned(stage.current)) && old(stage.board.CanPlace(m))
      ensures r == Err ==> unchanged(inventory.HexosOf(stage.current), stage.board.grid)
      ensures r == Ok ==> forall x, y :: 0 <= x < Rows && 0 <= y < Cols ==>
        stage.board.grid[x, y] == (old(stage.board.grid[x, y]) || Pos(x, y) in MTiles(m))
      ensures r == Ok ==> inventory.Owned(stage.current) == old(inventory.Owned(stage.current)) - {m.rhexo.hexo.id}
      ensures inventory.Owned(Other(stage.current)) == old(inventory.Owned(Other(stage.current)))
    {
      if !inventory.HexosOf(stage.current).Has(m.rhexo.hexo) {
        return Err;
      }
      r := stage.board.Place(PlacedHexo(m, stage.current));
      if r == Err {
        return;
      }
      r := inventory.Remove(stage.current, m.rhexo.hexo);
    }

    /** `_State::next`, which panics once the game is over. A pick stage
        hands the turn to the other player, unless the pool is empty, when
        the second player starts placing on a new board. A place stage
        hands the turn to the other player on the same board, and ends the
        game, won by the player before them, if nothing of theirs fits. */
    method Next()
      requires inventory.Valid() && !stage.EndStage?
      modifies this
      ensures old(stage).PickStage? ==>
        if inventory.Remaining() == {} then
          && stage.PlaceStage? && stage.current == Second
          && fresh(stage.board) && fresh(stage.board.grid)
          && stage.board.grid.Length0 == Rows && stage.board.grid.Length1 == Cols
          && forall x, y :: 0 <= x < Rows && 0 <= y < Cols ==> !stage.board.grid[x, y]
        else
          stage == PickStage(Other(old(stage).current))
      ensures old(stage).PlaceStage? ==>
        var p, b := old(stage).current, old(stage).board;
        stage == if CanMove(inventory, b, Other(p)) then PlaceStage(Other(p), b) else EndStage(p, b)
    {
      match stage {
        case PickStage(p) =>
          if inventory.remaining.IsEmpty() {
            var board := new Board(Rows, Cols);
            stage := PlaceStage(Second, board);
          } else {
            stage := PickStage(Other(p));
          }
        case PlaceStage(p, b) =>
          var q := Other(p);
          var canPlace := PlayerCanPlace(inventory, b, q);
          if !canPlace {
            OtherInvolution(p);
            stage := EndStage(Other(q), b);
          } else {
            stage := PlaceStage(q, b);
          }
      }
    }
  }
}
