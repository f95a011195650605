/** The lattice point of the piece generator: a pair of unbounded integers
    with translation, the mirror reflection x -> -x, the quarter turn
    (x, y) -> (-y, x), and the lexicographic order on (x, then y). */
module GenPoint {

  datatype Point = Point(x: int, y: int)

  const Origin := Point(0, 0)

  function Add(a: Point, b: Point): Point
    reads {}
  {
    Point(a.x + b.x, a.y + b.y)
  }

  function Sub(a: Point, b: Point): Point
    reads {}
  {
    Point(a.x - b.x, a.y - b.y)
  }

  function Reflect(p: Point): Point
    reads {}
  {
    Point(-p.x, p.y)
  }

  function Rotate(p: Point): Point
    reads {}
  {
    Point(-p.y, p.x)
  }

  /** `Rotate` applied k times. */
  function RotateN(k: nat, p: Point): Point {
    if k == 0 then p else Rotate(RotateN(k - 1, p))
  }

  /** The strict order `(a.x, a.y) < (b.x, b.y)` on tuples. */
  predicate Lt(a: Point, b: Point) {
    a.x < b.x || (a.x == b.x && a.y < b.y)
  }

  predicate Le(a: Point, b: Point) {
    Lt(a, b) || a == b
  }

  /** Two cells one step apart along one axis. */
  predicate Adjacent(a: Point, b: Point) {
    || (a.y == b.y && (a.x - b.x == 1 || b.x - a.x == 1))
    || (a.x == b.x && (a.y - b.y == 1 || b.y - a.y == 1))
  }

  /** Mirroring, turning and shifting keep two cells adjacent, and keep
      two cells apart. */
  lemma AdjacentKept(a: Point, b: Point, d: Point)
    ensures Adjacent(Reflect(a), Reflect(b)) <==> Adjacent(a, b)
    ensures Adjacent(Rotate(a), Rotate(b)) <==> Adjacent(a, b)
    ensures Adjacent(Add(a, d), Add(b, d)) <==> Adjacent(a, b)
  {
  }

  lemma AddSubRoundTrip(a: Point, b: Point)
    ensures Sub(Add(a, b), b) == a
    ensures Add(Sub(a, b), b) == a
    ensures Add(a, Origin) == a
    ensures Sub(a, b) == Add(a, Sub(Origin, b))
  {
  }

  lemma ReflectInvolution(p: Point)
    ensures Reflect(Reflect(p)) == p
  {
  }

  /** Four quarter turns are the identity, and no fewer are in general. */
  lemma {:induction false} RotateFourTimes(p: Point)
    ensures RotateN(4, p) == p
    ensures p != Origin ==> RotateN(1, p) != p && RotateN(2, p) != p && RotateN(3, p) != p
  {
    calc {
      RotateN(4, p);
      Rotate(RotateN(3, p));
      Rotate(Rotate(RotateN(2, p)));
      Rotate(Rotate(Rotate(RotateN(1, p))));
      Rotate(Rotate(Rotate(Rotate(p))));
      p;
    }
  }

  /** The closed forms of two and three quarter turns. */
  lemma {:induction false} RotateUnfold(p: Point)
    ensures RotateN(1, p) == Point(-p.y, p.x)
    ensures RotateN(2, p) == Point(-p.x, -p.y)
    ensures RotateN(3, p) == Point(p.y, -p.x)
  {
    calc {
      RotateN(3, p);
      Rotate(RotateN(2, p));
      Rotate(Rotate(RotateN(1, p)));
      Rotate(Rotate(Rotate(p)));
    }
  }

  /** The dihedral relation between the two generators: a turn after a
      reflection is a reflection after three turns. */
  lemma {:induction false} RotateAfterReflect(p: Point)
    ensures Rotate(Reflect(p)) == Reflect(RotateN(3, p))
    ensures RotateN(2, Reflect(p)) == Reflect(RotateN(2, p))
    ensures RotateN(3, Reflect(p)) == Reflect(Rotate(p))
  {
    RotateUnfold(p);
    RotateUnfold(Reflect(p));
  }

  /** Reflection and rotation are linear: they commute with translation. */
  lemma TransformsAreLinear(a: Point, b: Point)
    ensures Rotate(Add(a, b)) == Add(Rotate(a), Rotate(b))
    ensures Reflect(Add(a, b)) == Add(Reflect(a), Reflect(b))
  {
  }

  /** `Lt` is a strict total order, and translation preserves it. */
  lemma LtIsStrictTotalOrder(a: Point, b: Point, c: Point)
    ensures !Lt(a, a)
    ensures Lt(a, b) ==> !Lt(b, a)
    ensures Lt(a, b) && Lt(b, c) ==> Lt(a, c)
    ensures a != b ==> Lt(a, b) || Lt(b, a)
    ensures Lt(a, b) <==> Lt(Add(a, c), Add(b, c))
  {
  }
}
