/** The board position of the game core: a pair of integers with
    componentwise addition, the mirror x -> -x, the clockwise quarter turn
    (x, y) -> (y, -x), and the derived order (x first, then y).

    The maps on positions carry an empty `reads` clause. They read nothing;
    the clause only stops the verifier from evaluating them eagerly on
    constant arguments, which for a point a map keeps fixed (the origin,
    say) never terminates. */
module Positions {

  datatype Pos = Pos(x: int, y: int)

  const Zero := Pos(0, 0)

  function Add(a: Pos, b: Pos): Pos
    reads {}
  {
    Pos(a.x + b.x, a.y + b.y)
  }

  function Flip(p: Pos): Pos
    reads {}
  {
    Pos(-p.x, p.y)
  }

  /** The quarter turn the source documents as clockwise. */
  function Rotate(p: Pos): Pos
    reads {}
  {
    Pos(p.y, -p.x)
  }

  /** A turn count as Rust's `% 4` leaves it: between -3 and 3. Every
      orientation holds one. */
  type Turns = k: int | -3 <= k <= 3

  /** `Rotate` applied `k` times, no turn at all when `k` is not positive
      (as with a loop over `0..k`), written in closed form. */
  function RotateN(k: Turns, p: Pos): Pos
    reads {}
  {
    if k == 1 then Rotate(p)
    else if k == 2 then Pos(-p.x, -p.y)
    else if k == 3 then Pos(-p.y, p.x)
    else p
  }

  /** `Rotate` applied `n` times, one step after another. */
  ghost function RotateTimes(n: nat, p: Pos): Pos
    decreases n
  {
    if n == 0 then p else Rotate(RotateTimes(n - 1, p))
  }

  /** The derived `Ord`: compare x, then y. */
  predicate Lt(a: Pos, b: Pos) {
    a.x < b.x || (a.x == b.x && a.y < b.y)
  }

  /** `Zero` is the identity of `+`, which is commutative and associative. */
  lemma AddMonoid(a: Pos, b: Pos, c: Pos)
    ensures Add(a, Zero) == a && Add(Zero, a) == a
    ensures Add(a, b) == Add(b, a)
    ensures Add(Add(a, b), c) == Add(a, Add(b, c))
  {
  }

  /** Flipping twice is the identity. */
  lemma FlipInvolution(p: Pos)
    ensures Flip(Flip(p)) == p
  {
  }

  /** One more turn is `Rotate` once more, so `RotateN` counts the steps
      of the loop; a fourth turn comes back to the start. */
  lemma RotateStep(k: Turns, p: Pos)
    requires 0 <= k
    ensures k < 3 ==> RotateN(k + 1, p) == Rotate(RotateN(k, p))
    ensures k == 3 ==> Rotate(RotateN(k, p)) == p
  {
  }

  /** Turning n times is turning n mod 4 times. */
  lemma {:induction false} RotateTimesReduces(n: nat, p: Pos)
    ensures RotateTimes(n, p) == RotateN(n % 4, p)
    decreases n
  {
    if n > 0 {
      RotateTimesReduces(n - 1, p);
      assert n % 4 == if (n - 1) % 4 == 3 then 0 else (n - 1) % 4 + 1;
    }
  }

  /** Both maps keep the origin. */
  lemma KeepOrigin(k: Turns)
    ensures Flip(Zero) == Zero && RotateN(k, Zero) == Zero
  {
  }

  /** Both maps are linear: they commute with translation. */
  lemma Linear(k: Turns, a: Pos, b: Pos)
    ensures Flip(Add(a, b)) == Add(Flip(a), Flip(b))
    ensures RotateN(k, Add(a, b)) == Add(RotateN(k, a), RotateN(k, b))
  {
  }

  /** The dihedral relation: a flip after a turn is three turns after a
      flip, so a turn after a flip is a flip after three turns. */
  lemma FlipRotate(p: Pos)
    ensures Flip(Rotate(p)) == RotateN(3, Flip(p))
    ensures Rotate(Flip(p)) == Flip(RotateN(3, p))
  {
  }

  /** The derived order is a strict total order. */
  lemma LtIsStrictTotalOrder(a: Pos, b: Pos, c: Pos)
    ensures !Lt(a, a)
    ensures Lt(a, b) && Lt(b, c) ==> Lt(a, c)
    ensures a != b <==> Lt(a, b) || Lt(b, a)
  {
  }
}
