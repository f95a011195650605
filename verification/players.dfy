/** The two players of a game, as every copy of the game state names them. */
module Players {

  datatype Player = First | Second

  /** The index of the player's piece set: 0 for `First`, 1 for `Second`. */
  function Id(p: Player): nat {
    if p == First then 0 else 1
  }

  /** The opponent. */
  function Other(p: Player): (q: Player)
    ensures q != p
  {
    match p
    case First => Second
    case Second => First
  }

  /** `Other` is an involution, and the two ids differ. */
  lemma OtherInvolution(p: Player)
    ensures Other(Other(p)) == p
    ensures Id(Other(p)) == 1 - Id(p)
  {
  }
}
