/** The point of the older game code (`src/game/point.rs`): a pair of
    integers with componentwise addition, the mirror (x, y) -> (x, -y),
    which is not the core's mirror, and the clockwise quarter turn
    (x, y) -> (y, -x), which is the core's.

    As for the core's positions, the maps carry an empty `reads` clause so
    that the verifier does not evaluate them eagerly on constant points. */
module OldPoints {
  import Positions

  datatype Point = Point(x: int, y: int)

  /** `Point::default()` and `Point::new(0, 0)`. */
  const Origin := Point(0, 0)

  /** `Point::new`. */
  function NewPoint(x: int, y: int): (p: Point)
    ensures p.x == x && p.y == y
  {
    Point(x, y)
  }

  /** `+`: componentwise. */
  function Add(a: Point, b: Point): Point
    reads {}
  {
    Point(a.x + b.x, a.y + b.y)
  }

  /** `flip`: the mirror in the x axis. */
  function Flip(p: Point): Point
    reads {}
  {
    Point(p.x, -p.y)
  }

  /** `rotate`, documented as a clockwise quarter turn. */
  function Rotate(p: Point): Point
    reads {}
  {
    Point(p.y, -p.x)
  }

  /** `Rotate` applied `k` times, no turn at all when `k` is not positive,
      written in closed form. */
  function RotateN(k: Positions.Turns, p: Point): Point
    reads {}
  {
    if k == 1 then Rotate(p)
    else if k == 2 then Point(-p.x, -p.y)
    else if k == 3 then Point(-p.y, p.x)
    else p
  }

  /** `Rotate` applied `n` times, one step after another. */
  ghost function RotateTimes(n: nat, p: Point): Point
    decreases n
  {
    if n == 0 then p else Rotate(RotateTimes(n - 1, p))
  }

  /** The same pair read as a position of the core. */
  function ToPos(p: Point): (q: Positions.Pos)
    ensures q.x == p.x && q.y == p.y
  {
    Positions.Pos(p.x, p.y)
  }

  /** `Origin` is the identity of `+`, which is commutative and
      associative. */
  lemma AddMonoid(a: Point, b: Point, c: Point)
    ensures Add(a, Origin) == a && Add(Origin, a) == a
    ensures Add(a, b) == Add(b, a)
    ensures Add(Add(a, b), c) == Add(a, Add(b, c))
  {
  }

  /** Flipping twice is the identity, and a flip keeps x and negates y. */
  lemma FlipInvolution(p: Point)
    ensures Flip(Flip(p)) == p
    ensures Flip(p).x == p.x && Flip(p).y == -p.y
  {
  }

  /** One more turn is `Rotate` once more, so `RotateN` counts the steps
      of a loop; the fourth turn comes back to the start. */
  lemma RotateStep(k: Positions.Turns, p: Point)
    requires 0 <= k
    ensures k < 3 ==> RotateN(k + 1, p) == Rotate(RotateN(k, p))
    ensures k == 3 ==> Rotate(RotateN(k, p)) == p
  {
  }

  /** Turning n times is turning n mod 4 times; in particular four turns
      are the identity. */
  lemma {:induction false} RotateTimesReduces(n: nat, p: Point)
    ensures RotateTimes(n, p) == RotateN(n % 4, p)
    decreases n
  {
    if n > 0 {
      RotateTimesReduces(n - 1, p);
      assert n % 4 == if (n - 1) % 4 == 3 then 0 else (n - 1) % 4 + 1;
    }
  }

  /** The dihedral relation: a flip after a turn is three turns after a
      flip. */
  lemma FlipRotate(p: Point)
    ensures Flip(Rotate(p)) == RotateN(3, Flip(p))
  {
  }

  /** Both maps commute with translation. */
  lemma Linear(k: Positions.Turns, a: Point, b: Point)
    ensures Flip(Add(a, b)) == Add(Flip(a), Flip(b))
    ensures RotateN(k, Add(a, b)) == Add(RotateN(k, a), RotateN(k, b))
  {
  }

  /** The older code and the core agree on addition and on the quarter
      turn, but not on the mirror: the older mirror is the core's mirror
      followed by a half turn, and the two differ on every point but the
      origin. */
  lemma AgreesWithCore(k: Positions.Turns, a: Point, b: Point)
    ensures ToPos(Add(a, b)) == Positions.Add(ToPos(a), ToPos(b))
    ensures ToPos(RotateN(k, a)) == Positions.RotateN(k, ToPos(a))
    ensures ToPos(Flip(a)) == Positions.RotateN(2, Positions.Flip(ToPos(a)))
    ensures ToPos(Flip(a)) == Positions.Flip(ToPos(a)) <==> a.x == 0 && a.y == 0
  {
  }
}
