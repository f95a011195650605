/** The game state of the core (`hexomino-core/src/state.rs`): who holds
    which piece, whose turn it is, and the board. A game is a pick phase,
    in which the players take turns choosing pieces from a common pool,
    then a place phase, in which they take turns placing their own pieces;
    it ends when the player to move has nothing that fits, and the player
    who moved last wins. */
module CoreState {
  import opened Positions
  import opened Players
  import opened Hexos
  import opened HexoSets
  import opened Boards
  import opened Outcomes

  /** The pool and the two hands, each a piece set updated in place. The
      source keeps the hands in a two-element array indexed by the
      player's id; here they are two fields that `HexosOf` selects by that
      id. */
  class Inventory {
    const remaining: HexoSet
    const firstHand: HexoSet
    const secondHand: HexoSet

    /** The three sets are distinct objects and no piece is in two of
        them. */
    ghost predicate Valid()
      reads remaining, firstHand, secondHand
    {
      && remaining != firstHand && remaining != secondHand && firstHand != secondHand
      && remaining.Valid() && firstHand.Valid() && secondHand.Valid()
      && remaining.members !! firstHand.members
      && remaining.members !! secondHand.members
      && firstHand.members !! secondHand.members
    }

    /** The ids left in the pool. */
    ghost function Remaining(): set<nat>
      reads remaining
    {
      remaining.members
    }

    /** `hexos_of`: the hand of `p`, `player_hexos[p.id()]`. */
    function HexosOf(p: Player): (s: HexoSet)
      ensures s == firstHand || s == secondHand
    {
      if Id(p) == 0 then firstHand else secondHand
    }

    /** The ids in the hand of `p`. */
    ghost function Owned(p: Player): set<nat>
      reads firstHand, secondHand
    {
      HexosOf(p).members
    }

    /** `Inventory::new`: every piece in the pool, both hands empty. */
    constructor ()
      ensures Valid()
      ensures Remaining() == AllIds() && Owned(First) == {} && Owned(Second) == {}
      ensures fresh(remaining) && fresh(firstHand) && fresh(secondHand)
    {
      remaining := new HexoSet.All();
      firstHand := new HexoSet.Empty();
      secondHand := new HexoSet.Empty();
    }

    /** `add`, the pick: refused, changing nothing, unless the piece is
        still in the pool; otherwise moves it from the pool to the hand of
        `player`. */
    method Add(player: Player, hexo: Hexo) returns (r: Outcome)
      requires Valid() && ValidHexo(hexo)
      modifies remaining, HexosOf(player)
      ensures Valid()
      ensures r == Ok <==> hexo.id in old(Remaining())
      ensures r == Ok ==> (Remaining() == old(Remaining()) - {hexo.id} &&
        Owned(player) == old(Owned(player)) + {hexo.id})
      ensures r == Err ==> unchanged(remaining, HexosOf(player))
      ensures Owned(Other(player)) == old(Owned(Other(player)))
    {
      if !remaining.Has(hexo) {
        return Err;
      }
      remaining.Remove(hexo);
      HexosOf(player).Add(hexo);
      return Ok;
    }

    /** `remove`, the piece a placement uses: refused, changing nothing,
        unless `player` holds it; otherwise takes it out of their hand. */
    method Remove(player: Player, hexo: Hexo) returns (r: Outcome)
      requires Valid() && ValidHexo(hexo)
      modifies HexosOf(player)
      ensures Valid()
      ensures r == Ok <==> hexo.id in old(Owned(player))
      ensures Owned(player) == old(Owned(player)) - {hexo.id}
      ensures r == Err ==> unchanged(HexosOf(player))
      ensures Owned(Other(player)) == old(Owned(Other(player)))
      ensures Remaining() == old(Remaining())
    {
      var current := HexosOf(player);
      if !current.Has(hexo) {
        return Err;
      }
      current.Remove(hexo);
      return Ok;
    }

    /** `owner_of`: asks the first player's hand, then the second's. Since
        the hands are disjoint, the answer is the one holder, if any. */
    method OwnerOf(hexo: Hexo) returns (owner: Option<Player>)
      requires Valid() && ValidHexo(hexo)
      ensures owner == None <==> hexo.id !in Owned(First) && hexo.id !in Owned(Second)
      ensures owner.Some? ==> hexo.id in Owned(owner.value) && hexo.id !in Owned(Other(owner.value))
    {
      var players := [First, Second];
      for i := 0 to 2
        invariant forall j :: 0 <= j < i ==> hexo.id !in Owned(players[j])
      {
        if HexosOf(players[i]).Has(hexo) {
          return Some(players[i]);
        }
      }
      assert players[0] == First && players[1] == Second;
      return None;
    }
  }

  datatype GamePhase = Pick | Place | End

  /** A move: choose a piece from the pool, or put one of one's own
      pieces on the board. */
  datatype Action = PickAction(hexo: Hexo) | PlaceAction(moved: MovedHexo)

  /** The piece an action names is one of the table's. */
  predicate ValidAction(a: Action) {
    match a
    case PickAction(h) => ValidHexo(h)
    case PlaceAction(m) => ValidHexo(m.rhexo.hexo)
  }

  class State {
    var phase: GamePhase
    var currentPlayer: Player
    const inventory: Inventory
    const board: Board

    /** The inventory is valid and the board has the core's extents: `x`
        below `COLS`, `y` below `ROWS`. */
    ghost predicate WellFormed()
      reads inventory.remaining, inventory.firstHand, inventory.secondHand, board
    {
      inventory.Valid() && board.grid.Length0 == Cols && board.grid.Length1 == Rows
    }

    /** What every reachable state keeps: during the pick phase every
        piece is in the pool or in one hand, and the first player has
        picked as many pieces as the second when it is their turn, one
        more otherwise; after it the pool is empty. */
    ghost predicate Valid()
      reads this, inventory.remaining, inventory.firstHand, inventory.secondHand, board
    {
      && WellFormed()
      && (phase == Pick ==>
            Balanced(inventory.Remaining(), inventory.Owned(First), inventory.Owned(Second), currentPlayer))
      && (phase != Pick ==> inventory.Remaining() == {})
    }

    /** The player `p` holds a piece that fits somewhere on the board. */
    ghost predicate CanMove(p: Player)
      reads inventory.firstHand, inventory.secondHand, board, board.grid
    {
      exists h :: ValidHexo(h) && h.id in inventory.Owned(p) && board.CanPlaceSomewhere(h)
    }

    /** What is left to play: twice the pool (each of those pieces is
        still to be picked and placed) and once each hand. */
    ghost function Measure(): nat
      reads inventory.remaining, inventory.firstHand, inventory.secondHand
    {
      2 * |inventory.Remaining()| + |inventory.Owned(First)| + |inventory.Owned(Second)|
    }

    /** The effect of an accepted pick of `h`: the piece leaves the pool
        for the mover's hand, the other hand stays as it was, and the
        other player picks next, unless the pool is now empty, when the
        place phase begins with the second player. */
    twostate predicate Picked(h: Hexo)
      reads this, inventory.remaining, inventory.firstHand, inventory.secondHand
    {
      && inventory.Remaining() == old(inventory.Remaining()) - {h.id}
      && inventory.Owned(old(currentPlayer)) == old(inventory.Owned(currentPlayer)) + {h.id}
      && inventory.Owned(Other(old(currentPlayer))) == old(inventory.Owned(Other(currentPlayer)))
      && (if inventory.Remaining() == {} then phase == Place && currentPlayer == Second
          else phase == Pick && currentPlayer == Other(old(currentPlayer)))
    }

    /** The effect of an accepted placement of `m`: the board gains
        exactly the piece's cells, the piece leaves the mover's hand, the
        other hand stays as it was, and the other player moves next if
        something of theirs fits, otherwise the game is over. */
    twostate predicate Placed(m: MovedHexo)
      requires old(WellFormed()) && WellFormed() && ValidHexo(m.rhexo.hexo)
      reads this, inventory.remaining, inventory.firstHand, inventory.secondHand, board, board.grid
    {
      && (forall x, y :: 0 <= x < Cols && 0 <= y < Rows ==>
            board.grid[x, y] == (old(board.grid[x, y]) || Pos(x, y) in MTiles(m)))
      && inventory.Owned(old(currentPlayer)) == old(inventory.Owned(currentPlayer)) - {m.rhexo.hexo.id}
      && inventory.Owned(Other(old(currentPlayer))) == old(inventory.Owned(Other(currentPlayer)))
      && currentPlayer == Other(old(currentPlayer))
      && (phase == Place <==> CanMove(currentPlayer))
      && (phase == End <==> !CanMove(currentPlayer))
    }

    /** `State::new`: the pick phase, the first player to move, every
        piece in the pool and an empty board. */
    constructor ()
      ensures Valid() && fresh(inventory) && fresh(board) && fresh(board.grid)
      ensures fresh(inventory.remaining) && fresh(inventory.firstHand) && fresh(inventory.secondHand)
      ensures phase == Pick && currentPlayer == First
      ensures inventory.Remaining() == AllIds()
      ensures inventory.Owned(First) == {} && inventory.Owned(Second) == {}
      ensures forall x, y :: 0 <= x < Cols && 0 <= y < Rows ==> !board.grid[x, y]
    {
      phase := Pick;
      currentPlayer := First;
      inventory := new Inventory();
      board := new Board(Cols, Rows);
    }

    /** `current_player`: nobody once the game is over. */
    function CurrentPlayer(): (p: Option<Player>)
      reads this
      ensures p == None <==> phase == End
      ensures p.Some? ==> p.value == currentPlayer
    {
      if phase == End then None else Some(currentPlayer)
    }

    /** `winner`: only once the game is over, the opponent of the player
        who could not move. */
    function Winner(): (w: Option<Player>)
      reads this
      ensures w.Some? <==> phase == End
      ensures w.Some? ==> w.value != currentPlayer
    {
      if phase == End then Some(Other(currentPlayer)) else None
    }

    /** The action is accepted: its kind matches the phase, a picked piece
        is still in the pool, and a placed piece fits and belongs to the
        player to move. */
    ghost predicate Legal(a: Action)
      requires ValidAction(a)
      reads this, inventory.remaining, inventory.firstHand, inventory.secondHand, board, board.grid
    {
      match a
      case PickAction(h) => phase == Pick && h.id in inventory.Remaining()
      case PlaceAction(m) =>
        phase == Place && board.CanPlace(m) && m.rhexo.hexo.id in inventory.Owned(currentPlayer)
    }

    /** `play`: an action that is not legal is refused and changes
        nothing. A legal pick moves the piece into the mover's hand; a
        legal placement covers exactly the piece's cells and takes it out
        of the mover's hand. Then the turn passes on as `next` decides,
        the game never goes back to an earlier phase, what is left to play
        shrinks, and a game that ends is won by the player who moved
        last. */
    method Play(a: Action) returns (r: Outcome)
      requires Valid() && ValidAction(a)
      modifies this, inventory.remaining, inventory.firstHand, inventory.secondHand, board.grid
      ensures Valid()
      ensures r == Ok <==> old(Legal(a))
      ensures r == Err ==> phase == old(phase) && currentPlayer == old(currentPlayer)
      ensures r == Err ==> unchanged(inventory.remaining, inventory.firstHand, inventory.secondHand, board.grid)
      ensures r == Ok && a.PickAction? ==> Picked(a.hexo) && unchanged(board.grid)
      ensures r == Ok && a.PlaceAction? ==> Placed(a.moved)
      ensures r == Ok ==> Measure() < old(Measure())
      ensures r == Ok && phase == End ==> Winner() == Some(old(currentPlayer))
    {
      match (phase, a) {
        case (Pick, PickAction(h)) => r := PickTurn(h);
        case (Place, PlaceAction(m)) => r := PlaceTurn(m);
        case _ => r := Err;
      }
    }

    /** `play` in the pick phase: `pick`, then `next` if it succeeded. */
    method PickTurn(h: Hexo) returns (r: Outcome)
      requires Valid() && phase == Pick && ValidHexo(h)
      modifies this, inventory.remaining, inventory.firstHand, inventory.secondHand
      ensures Valid()
      ensures r == Ok <==> h.id in old(inventory.Remaining())
      ensures r == Err ==> phase == old(phase) && currentPlayer == old(currentPlayer)
      ensures r == Err ==> unchanged(inventory.remaining, inventory.firstHand, inventory.secondHand)
      ensures r == Ok ==> Picked(h)
      ensures r == Ok ==> Measure() < old(Measure())
    {
      ghost var pool := inventory.Remaining();
      ghost var mine := inventory.Owned(currentPlayer);
      r := PickHexo(h);
      if r == Err {
        return;
      }
      PickKeepsBalance(pool, old(inventory.Owned(First)), old(inventory.Owned(Second)), old(currentPlayer), h.id);
      MoveCounts(pool, mine, h.id);
      Next();
    }

    /** `play` in the place phase: `place`, then `next` if it succeeded. */
    method PlaceTurn(m: MovedHexo) returns (r: Outcome)
      requires Valid() && phase == Place && ValidHexo(m.rhexo.hexo)
      modifies this, inventory.firstHand, inventory.secondHand, board.grid
      ensures Valid()
      ensures r == Ok <==> old(board.CanPlace(m)) && m.rhexo.hexo.id in old(inventory.Owned(currentPlayer))
      ensures r == Err ==> phase == old(phase) && currentPlayer == old(currentPlayer)
      ensures r == Err ==> unchanged(inventory.firstHand, inventory.secondHand, board.grid)
      ensures r == Ok ==> Placed(m)
      ensures r == Ok ==> Measure() < old(Measure())
      ensures r == Ok && phase == End ==> Winner() == Some(old(currentPlayer))
    {
      ghost var mine := inventory.Owned(currentPlayer);
      r := PlaceHexo(m);
      if r == Err {
        return;
      }
      MoveCounts(mine, {}, m.rhexo.hexo.id);
      Next();
      OtherInvolution(old(currentPlayer));
    }

    /** `pick`: the inventory's `add` for the player to move. */
    method PickHexo(h: Hexo) returns (r: Outcome)
      requires WellFormed() && ValidHexo(h)
      modifies inventory.remaining, inventory.HexosOf(currentPlayer)
      ensures WellFormed()
      ensures r == Ok <==> h.id in old(inventory.Remaining())
      ensures r == Ok ==> (inventory.Remaining() == old(inventory.Remaining()) - {h.id} &&
        inventory.Owned(currentPlayer) == old(inventory.Owned(currentPlayer)) + {h.id})
      ensures r == Err ==> unchanged(inventory.remaining, inventory.firstHand, inventory.secondHand)
      ensures inventory.Owned(Other(currentPlayer)) == old(inventory.Owned(Other(currentPlayer)))
    {
      r := inventory.Add(currentPlayer, h);
    }

    /** `place`: refused when the piece does not fit, then when the
        player does not hold it; otherwise the piece leaves the hand and
        covers its cells. */
    method PlaceHexo(m: MovedHexo) returns (r: Outcome)
      requires WellFormed() && ValidHexo(m.rhexo.hexo)
      modifies inventory.HexosOf(currentPlayer), board.grid
      ensures WellFormed()
      ensures r == Ok <==> old(board.CanPlace(m)) && m.rhexo.hexo.id in old(inventory.Owned(currentPlayer))
      ensures r == Err ==> unchanged(inventory.HexosOf(currentPlayer), board.grid)
      ensures r == Ok ==>
        && (forall x, y :: 0 <= x < Cols && 0 <= y < Rows ==>
              board.grid[x, y] == (old(board.grid[x, y]) || Pos(x, y) in MTiles(m)))
        && inventory.Owned(currentPlayer) == old(inventory.Owned(currentPlayer)) - {m.rhexo.hexo.id}
      ensures inventory.Owned(Other(currentPlayer)) == old(inventory.Owned(Other(currentPlayer)))
      ensures inventory.Remaining() == old(inventory.Remaining())
    {
      if !board.CanPlace(m) {
        return Err;
      }
      r := inventory.Remove(currentPlayer, m.rhexo.hexo);
      if r == Err {
        return;
      }
      r := board.Place(PlacedHexo(m, currentPlayer));
    }

    /** `current_player_can_place`: whether some piece in the mover's
        hand fits somewhere, trying them by increasing id. */
    method CurrentPlayerCanPlace() returns (b: bool)
      requires WellFormed() && phase == Place
      ensures b <==> CanMove(currentPlayer)
    {
      var hexos := inventory.HexosOf(currentPlayer);
      if hexos.IsEmpty() {
        return false;
      }
      var list := hexos.Iter();
      for i := 0 to |list|
        invariant forall j :: 0 <= j < i ==> !board.CanPlaceSomewhere(list[j])
      {
        assert list[i] in list;
        if board.CanPlaceSomewhere(list[i]) {
          return true;
        }
      }
      forall h | ValidHexo(h) && h.id in inventory.Owned(currentPlayer)
        ensures !board.CanPlaceSomewhere(h)
      {
        assert h in list;
      }
      return false;
    }

    /** `next`, which panics once the game is over. After a pick the
        other player picks, unless the pool is now empty, when the place
        phase begins with the second player. After a placement the other
        player moves, and the game ends if nothing of theirs fits. */
    method Next()
      requires WellFormed() && phase != End
      modifies this
      ensures old(phase) == Pick ==>
        if inventory.Remaining() == {} then phase == Place && currentPlayer == Second
        else phase == Pick && currentPlayer == Other(old(currentPlayer))
      ensures old(phase) == Place ==> currentPlayer == Other(old(currentPlayer))
      ensures old(phase) == Place ==> (phase == Place <==> CanMove(currentPlayer))
      ensures old(phase) == Place ==> (phase == End <==> !CanMove(currentPlayer))
    {
      match phase {
        case Pick =>
          if inventory.remaining.IsEmpty() {
            phase := Place;
            currentPlayer := Second;
          } else {
            currentPlayer := Other(currentPlayer);
          }
        case Place =>
          currentPlayer := Other(currentPlayer);
          var canPlace := CurrentPlayerCanPlace();
          if !canPlace {
            phase := End;
          }
      }
    }
  }

  /** Moving one id from one set to another that lacks it shrinks the
      first by one and grows the second by one. */
  lemma MoveCounts(from: set<nat>, to: set<nat>, id: nat)
    requires id in from && id !in to
    ensures |from - {id}| == |from| - 1
    ensures |to + {id}| == |to| + 1
  {
  }

  /** During the pick phase every piece is in the pool or in a hand, and
      the first player has picked as many pieces as the second when it is
      their turn to pick, one more otherwise. */
  ghost predicate Balanced(pool: set<nat>, first: set<nat>, second: set<nat>, mover: Player) {
    && (forall id: nat :: id < HexoCount ==> id in pool || id in first || id in second)
    && |first| == |second| + (if mover == First then 0 else 1)
  }

  /** A pick by the player to move keeps the pick phase balanced once the
      turn passes to the other player. */
  lemma PickKeepsBalance(pool: set<nat>, first: set<nat>, second: set<nat>, mover: Player, id: nat)
    requires Balanced(pool, first, second, mover)
    requires id in pool && id !in first && id !in second
    ensures mover == First ==> Balanced(pool - {id}, first + {id}, second, Second)
    ensures mover == Second ==> Balanced(pool - {id}, first, second + {id}, First)
  {
  }
}
