/** Pieces of the older game code (`src/game/hexo.rs`). A transform there
    carries its own displacement, and it mirrors first, then turns, then
    translates; the core turns first and mirrors after, and keeps the
    displacement apart. The piece id and the piece set are the core's
    (`Hexos.Hexo`, `HexoSets.HexoSet`): the older code for them is the
    same. */
module OldHexos {
  import opened OldPoints
  import Positions
  import Hexos
  import RustInt

  /** The cells of each piece in the test build (the same shapes as the
      core's table, an L and the straight piece). */
  const OldHexoTiles: seq<seq<Point>> := [
    [Point(0, 0), Point(0, 1), Point(0, 2), Point(0, 3), Point(1, 0), Point(1, 1)],
    [Point(0, 0), Point(0, 1), Point(0, 2), Point(0, 3), Point(0, 4), Point(0, 5)]
  ]

  /** `Hexo::tiles`. */
  function Tiles(h: Hexos.Hexo): (r: seq<Point>)
    requires Hexos.ValidHexo(h)
    ensures |r| == 6
    ensures forall i :: 0 <= i < 6 ==> ToPos(r[i]) == Hexos.Tiles(h)[i]
  {
    OldHexoTiles[h.id]
  }

  // ---- Transform ------------------------------------------------------------

  /** An optional mirror, then `rotate` clockwise quarter turns, then a
      translation by `displacement`. */
  datatype Transform = Transform(flipped: bool, rotate: Positions.Turns, displacement: Point)

  /** `Transform::default()`: no mirror, no turn, no translation. */
  const Default := Transform(false, 0, Origin)

  /** `Transform::new` keeps `rotate % 4`, with Rust's sign-keeping
      remainder. */
  function NewTransform(flipped: bool, rotate: int, displacement: Point): (t: Transform)
    ensures t.flipped == flipped && t.displacement == displacement
    ensures rotate >= 0 ==> t.rotate == rotate % 4
    ensures rotate < 0 ==> t.rotate <= 0 && (t.rotate - rotate) % 4 == 0
  {
    Transform(flipped, RustInt.RemFour(rotate), displacement)
  }

  /** `with_displacement`: the same orientation at another position. */
  function WithDisplacement(t: Transform, displacement: Point): Transform {
    t.(displacement := displacement)
  }

  /** What `apply_on` computes. */
  function Apply(t: Transform, p: Point): Point
    reads {}
  {
    var q := if t.flipped then Flip(p) else p;
    Add(RotateN(t.rotate, q), t.displacement)
  }

  /** `apply_on`: mirror the tile if asked, turn it `rotate` times (not at
      all when `rotate` is negative, as the loop runs over `0..rotate`),
      then translate it. */
  method ApplyOn(t: Transform, tile0: Point) returns (tile: Point)
    ensures tile == Apply(t, tile0)
  {
    tile := tile0;
    if t.flipped {
      tile := Flip(tile);
    }
    ghost var flipped := tile;
    var turns := if t.rotate > 0 then t.rotate else 0;  // the range `0..rotate`
    for i := 0 to turns
      invariant tile == RotateN(i, flipped)
    {
      RotateStep(i, flipped);
      tile := Rotate(tile);
    }
    tile := Add(tile, t.displacement);
  }

  /** A transform whose turn count is reduced, as `new` produces from a
      non-negative count. */
  predicate Reduced(t: Transform) {
    0 <= t.rotate
  }

  /** From a non-negative count, `new` makes a reduced transform that
      mirrors, turns the tile that many times one turn after another, and
      translates. */
  lemma NewTransformActs(flipped: bool, rotate: int, d: Point, p: Point)
    requires rotate >= 0
    ensures Reduced(NewTransform(flipped, rotate, d))
    ensures Apply(NewTransform(flipped, rotate, d), p) ==
      Add(RotateTimes(rotate, if flipped then Flip(p) else p), d)
  {
    RustInt.RemFourIdempotent(rotate);
    RotateTimesReduces(rotate, if flipped then Flip(p) else p);
  }

  /** From a negative count the stored count is negative or zero, and the
      loop of `apply_on` then makes no turn at all: `new(_, -1, _)` does
      not turn, while `new(_, 3, _)` turns three times. */
  lemma NegativeCountNeverTurns(flipped: bool, rotate: int, d: Point, p: Point)
    requires rotate < 0
    ensures Apply(NewTransform(flipped, rotate, d), p) == Add(if flipped then Flip(p) else p, d)
  {
  }

  /** `with_displacement` keeps the mirror and the turns, so the tile it
      places is the untranslated image shifted by the new displacement;
      replacing the displacement twice is replacing it once. */
  lemma WithDisplacementActs(t: Transform, d: Point, e: Point, p: Point)
    ensures WithDisplacement(t, d).flipped == t.flipped && WithDisplacement(t, d).rotate == t.rotate
    ensures Apply(WithDisplacement(t, d), p) == Add(Apply(WithDisplacement(t, Origin), p), d)
    ensures WithDisplacement(WithDisplacement(t, e), d) == WithDisplacement(t, d)
  {
  }

  // ---- MovedHexo --------------------------------------------------------------

  /** A piece under a transform. */
  datatype MovedHexo = MovedHexo(hexo: Hexos.Hexo, transform: Transform)

  /** `Hexo::apply` and `MovedHexo::new`. */
  function ApplyTo(h: Hexos.Hexo, t: Transform): MovedHexo {
    MovedHexo(h, t)
  }

  /** `Hexo::all_orbit`: unmirrored then mirrored, each with 0 to 3 turns,
      all at the origin. */
  function AllOrbit(h: Hexos.Hexo): (r: seq<MovedHexo>)
    ensures |r| == 8
  {
    seq(8, i requires 0 <= i < 8 => ApplyTo(h, Transform(i >= 4, i % 4, Origin)))
  }

  /** The orbit lists the eight reduced orientations at the origin once
      each, and holds every one of them. */
  lemma AllOrbitSpec(h: Hexos.Hexo)
    ensures forall i :: 0 <= i < 8 ==>
      AllOrbit(h)[i].hexo == h && Reduced(AllOrbit(h)[i].transform) &&
      AllOrbit(h)[i].transform.displacement == Origin
    ensures forall i, j :: 0 <= i < j < 8 ==> AllOrbit(h)[i] != AllOrbit(h)[j]
    ensures forall t :: Reduced(t) && t.displacement == Origin ==> MovedHexo(h, t) in AllOrbit(h)
  {
    forall t | Reduced(t) && t.displacement == Origin
      ensures MovedHexo(h, t) in AllOrbit(h)
    {
      var i := (if t.flipped then 4 else 0) + t.rotate;
      assert AllOrbit(h)[i] == MovedHexo(h, t);
    }
  }

  /** `MovedHexo::move_to`: the same piece, mirror and turns at another
      position. */
  function MoveTo(m: MovedHexo, d: Point): MovedHexo {
    MovedHexo(m.hexo, WithDisplacement(m.transform, d))
  }

  /** `MovedHexo::tiles`: `apply_on` on each cell of the piece, in the
      table's order. */
  function MTiles(m: MovedHexo): (ts: seq<Point>)
    requires Hexos.ValidHexo(m.hexo)
    ensures |ts| == 6
  {
    seq(6, i requires 0 <= i < 6 => Apply(m.transform, Tiles(m.hexo)[i]))
  }

  /** A move keeps the piece and its orientation, and translates every
      tile of the piece at the origin by the new displacement. */
  lemma MoveSpec(m: MovedHexo, d: Point)
    requires Hexos.ValidHexo(m.hexo)
    ensures MoveTo(m, d).hexo == m.hexo
    ensures MoveTo(m, d).transform.flipped == m.transform.flipped
    ensures MoveTo(m, d).transform.rotate == m.transform.rotate
    ensures MoveTo(m, d).transform.displacement == d
    ensures forall i :: 0 <= i < 6 ==> MTiles(MoveTo(m, d))[i] == Add(MTiles(MoveTo(m, Origin))[i], d)
  {
    forall i | 0 <= i < 6
      ensures MTiles(MoveTo(m, d))[i] == Add(MTiles(MoveTo(m, Origin))[i], d)
    {
      WithDisplacementActs(m.transform, d, Origin, Tiles(m.hexo)[i]);
    }
  }

  /** Every piece has its first tile at the origin, so a moved piece
      covers its own displacement. */
  lemma FirstTileAtDisplacement(m: MovedHexo)
    requires Hexos.ValidHexo(m.hexo)
    ensures MTiles(m)[0] == m.transform.displacement
  {
    assert Tiles(m.hexo)[0] == Origin by { assert m.hexo.id == 0 || m.hexo.id == 1; }
  }

  /** The core orientation that places a tile where the reduced older one
      does: the same without a mirror, and `2 - rotate` turns (mod 4)
      with one. */
  function CoreOrientation(t: Transform): (c: Hexos.Transform)
    requires Reduced(t)
    ensures Hexos.Reduced(c) && c.flipped == t.flipped
  {
    Hexos.Transform(t.flipped, if !t.flipped then t.rotate else if t.rotate <= 2 then 2 - t.rotate else 3)
  }

  /** Although the two codes mirror and turn differently, their eight
      orientations are the same maps of the plane, so a piece can take the
      same shapes in both. */
  lemma SameOrientations(t: Transform, p: Point)
    requires Reduced(t)
    ensures ToPos(Apply(t, p)) == Positions.Add(Hexos.Apply(CoreOrientation(t), ToPos(p)), ToPos(t.displacement))
  {
  }

  /** The two mirrored transforms of the older code put every tile where
      the core's transforms with the other half turn do: a mirror alone
      here is a mirror after a half turn in the core, and the other way
      round. */
  lemma MirrorsInCoreTerms(p: Point)
    ensures ToPos(Apply(Transform(true, 0, Origin), p)) == Hexos.Apply(Hexos.Transform(true, 2), ToPos(p))
    ensures ToPos(Apply(Transform(true, 2, Origin), p)) == Hexos.Apply(Hexos.Transform(true, 0), ToPos(p))
  {
    SameOrientations(Transform(true, 0, Origin), p);
    SameOrientations(Transform(true, 2, Origin), p);
  }
}
