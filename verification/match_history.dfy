/** The record the server keeps of a match between two users
    (`hexomino-server/src/kernel/match_history.rs`): the games played so
    far and a score per user, updated in place as each game ends. */
module MatchHistories {
  import opened Players
  import CoreState

  /** Identifiers are UUIDs; only their equality matters here. */
  datatype MatchId = MatchId(uuid: nat)
  datatype UserId = UserId(uuid: nat)

  /** Why a game ended. The variants of the API's type play no part in
      the tally, so they are kept as an opaque tag. */
  datatype GameEndReason = GameEndReason(tag: nat)

  /** One finished game: which side the match's first user played, the
      moves, the winning side and why it ended. */
  datatype GameHistory = GameHistory(
    firstUserPlayer: Player,
    actions: seq<CoreState.Action>,
    winner: Player,
    endReason: GameEndReason)

  /** The index (0 or 1) of the match's user who won the game: the first
      user when the winning side is the one they played. */
  function WinningUser(g: GameHistory): (u: nat)
    ensures u < 2
    ensures u == 0 <==> g.winner == g.firstUserPlayer
  {
    if g.winner == g.firstUserPlayer then 0 else 1
  }

  /** How many of the games the user with index `u` won. */
  function Wins(games: seq<GameHistory>, u: nat): (n: nat)
    ensures n <= |games|
  {
    if |games| == 0 then 0
    else Wins(games[..|games| - 1], u) + (if WinningUser(games[|games| - 1]) == u then 1 else 0)
  }

  /** Every game is won by exactly one of the two users. */
  lemma {:induction false} WinsPartition(games: seq<GameHistory>)
    ensures Wins(games, 0) + Wins(games, 1) == |games|
  {
    if |games| > 0 {
      WinsPartition(games[..|games| - 1]);
    }
  }

  /** One more game adds one win, to its winner's count only. */
  lemma WinsAppend(games: seq<GameHistory>, g: GameHistory, u: nat)
    ensures Wins(games + [g], u) == Wins(games, u) + (if WinningUser(g) == u then 1 else 0)
  {
    assert (games + [g])[..|games|] == games;
  }

  class MatchHistory {
    const id: MatchId
    /** The two users, `users[0]` being the match's first user. */
    const users: seq<UserId>
    /** `scores[u]`: the games won by `users[u]`; a two-element array
        updated in place. */
    const scores: array<nat>
    var games: seq<GameHistory>

    /** Each score counts exactly the games its user won. */
    ghost predicate Valid()
      reads this, scores
    {
      && |users| == 2 && scores.Length == 2
      && scores[0] == Wins(games, 0) && scores[1] == Wins(games, 1)
    }

    /** `MatchHistory::new`: no games, both scores zero. */
    constructor (id: MatchId, users: seq<UserId>)
      requires |users| == 2
      ensures Valid() && fresh(scores)
      ensures this.id == id && this.users == users
      ensures games == [] && scores[..] == [0, 0]
    {
      this.id := id;
      this.users := users;
      scores := new nat[2](_ => 0);
      games := [];
    }

    /** `add_game`: records the game, then adds a point to the first
        user's score when the winning side is the one they played, and to
        the second user's otherwise. */
    method AddGame(firstUserPlayer: Player, actions: seq<CoreState.Action>, winner: Player,
                   endReason: GameEndReason)
      requires Valid()
      modifies this, scores
      ensures Valid()
      ensures games == old(games) + [GameHistory(firstUserPlayer, actions, winner, endReason)]
      ensures winner == firstUserPlayer ==> scores[0] == old(scores[0]) + 1 && scores[1] == old(scores[1])
      ensures winner != firstUserPlayer ==> scores[1] == old(scores[1]) + 1 && scores[0] == old(scores[0])
      ensures scores[0] + scores[1] == |games|
    {
      var g := GameHistory(firstUserPlayer, actions, winner, endReason);
      WinsAppend(games, g, 0);
      WinsAppend(games, g, 1);
      games := games + [g];
      if winner == firstUserPlayer {
        scores[0] := scores[0] + 1;
      } else {
        scores[1] := scores[1] + 1;
      }
      WinsPartition(games);
    }
  }
}
