/** Pieces of the game core: a piece id, the eight orientations a piece can
    take (an optional mirror after a number of clockwise quarter turns), a
    piece in an orientation, and such a piece moved to a board position. */
module Hexos {
  import opened Positions
  import opened Players
  import RustInt

  // ---- The piece table (the test build's constants) -------------------------

  /** `N_HEXOS` of the test build. */
  const HexoCount := 2

  /** The cells of each piece: an L shape and the straight piece. */
  const HexoTiles: seq<seq<Pos>> := [
    [Pos(0, 0), Pos(0, 1), Pos(0, 2), Pos(0, 3), Pos(1, 0), Pos(1, 1)],
    [Pos(0, 0), Pos(0, 1), Pos(0, 2), Pos(0, 3), Pos(0, 4), Pos(0, 5)]
  ]

  /** A unit side of a cell, as two corners. */
  datatype Edge = Edge(p1: Pos, p2: Pos)

  /** The outline of each piece; the test build leaves them empty. */
  const HexoBorders: seq<seq<Edge>> := [[], []]

  // ---- Hexo -----------------------------------------------------------------

  datatype Hexo = Hexo(id: nat)

  predicate ValidHexo(h: Hexo) {
    h.id < HexoCount
  }

  /** `Hexo::new` asserts that the id names a piece of the table. */
  function NewHexo(id: nat): (h: Hexo)
    requires id < HexoCount
    ensures ValidHexo(h) && h.id == id
  {
    Hexo(id)
  }

  function Tiles(h: Hexo): (r: seq<Pos>)
    requires ValidHexo(h)
    ensures |r| == 6
  {
    HexoTiles[h.id]
  }

  function Borders(h: Hexo): seq<Edge>
    requires ValidHexo(h)
  {
    HexoBorders[h.id]
  }

  /** `Hexo::all_hexos`: every piece of the table, by increasing id. */
  function AllHexos(): (r: seq<Hexo>)
    ensures |r| == HexoCount
    ensures forall i :: 0 <= i < |r| ==> r[i] == Hexo(i)
  {
    [Hexo(0), Hexo(1)]
  }

  // ---- Transform ------------------------------------------------------------

  /** An orientation: `rotate` clockwise quarter turns, then a mirror when
      `flipped`. */
  datatype Transform = Transform(flipped: bool, rotate: Turns)

  /** `Transform::I`, the identity. */
  const Identity := Transform(false, 0)

  /** `Transform::new` keeps `rotate % 4`, with Rust's sign-keeping
      remainder. */
  function NewTransform(flipped: bool, rotate: int): Transform {
    Transform(flipped, RustInt.RemFour(rotate))
  }

  /** `Transform::flip`: toggles the mirror. */
  function FlipTransform(t: Transform): Transform {
    Transform(!t.flipped, t.rotate)
  }

  /** `Transform::rotate`: one more clockwise turn of the oriented piece,
      which under a mirror means three more turns before it. */
  function RotateTransform(t: Transform): Transform {
    Transform(t.flipped, RustInt.RemFour(t.rotate + if t.flipped then 3 else 1))
  }

  /** What `apply_on` computes. */
  function Apply(t: Transform, p: Pos): Pos
    reads {}
  {
    var q := RotateN(t.rotate, p);
    if t.flipped then Flip(q) else q
  }

  /** `apply_on`: turn the tile `rotate` times, then mirror it. */
  method ApplyOn(t: Transform, tile0: Pos) returns (tile: Pos)
    ensures tile == Apply(t, tile0)
  {
    tile := tile0;
    var turns := if t.rotate > 0 then t.rotate else 0;  // the range `0..rotate`
    for i := 0 to turns
      invariant tile == RotateN(i, tile0)
    {
      RotateStep(i, tile0);
      tile := Rotate(tile);
    }
    if t.flipped {
      tile := Flip(tile);
    }
  }

  /** A transform whose turn count is reduced, as `new` and `rotate`
      produce from a non-negative count. */
  predicate Reduced(t: Transform) {
    0 <= t.rotate
  }

  /** `new` reduces every non-negative count, and the transform it makes
      acts as turning the piece that many times, one turn after another. */
  lemma NewTransformReduces(flipped: bool, rotate: int, p: Pos)
    requires rotate >= 0
    ensures Reduced(NewTransform(flipped, rotate))
    ensures Apply(NewTransform(flipped, rotate), p) ==
      if flipped then Flip(RotateTimes(rotate, p)) else RotateTimes(rotate, p)
  {
    RustInt.RemFourIdempotent(rotate);
    RotateTimesReduces(rotate, p);
  }

  /** Flipping a transform twice gives it back; the turn count is kept. */
  lemma FlipTransformInvolution(t: Transform)
    ensures FlipTransform(FlipTransform(t)) == t
    ensures FlipTransform(t).rotate == t.rotate && FlipTransform(t).flipped != t.flipped
  {
  }

  /** `flip` mirrors the oriented piece. */
  lemma FlipTransformActs(t: Transform, p: Pos)
    ensures Apply(FlipTransform(t), p) == Flip(Apply(t, p))
  {
  }

  /** `rotate` keeps a reduced transform reduced and turns the oriented
      piece clockwise, mirrored or not. */
  lemma RotateTransformActs(t: Transform, p: Pos)
    requires Reduced(t)
    ensures Reduced(RotateTransform(t))
    ensures Apply(RotateTransform(t), p) == Rotate(Apply(t, p))
  {
    FlipRotate(RotateN(t.rotate, p));
  }

  /** Four `rotate` calls give back a reduced transform. */
  lemma RotateTransformFour(t: Transform)
    requires Reduced(t)
    ensures RotateTransform(RotateTransform(RotateTransform(RotateTransform(t)))) == t
  {
  }

  /** Orientations are linear maps: they commute with translation. */
  lemma ApplyLinear(t: Transform, a: Pos, b: Pos)
    ensures Apply(t, Add(a, b)) == Add(Apply(t, a), Apply(t, b))
  {
    Linear(t.rotate, a, b);
  }

  // ---- RHexo, MovedHexo, PlacedHexo -----------------------------------------

  /** A piece in an orientation. */
  datatype RHexo = RHexo(hexo: Hexo, transform: Transform)

  /** `Hexo::apply`. */
  function ApplyTo(h: Hexo, t: Transform): RHexo {
    RHexo(h, t)
  }

  /** `Hexo::all_orbit`: unmirrored then mirrored, each with 0 to 3 turns. */
  function AllOrbit(h: Hexo): (r: seq<RHexo>)
    ensures |r| == 8
  {
    seq(8, i requires 0 <= i < 8 => ApplyTo(h, Transform(i >= 4, i % 4)))
  }

  /** The orbit lists the eight reduced orientations once each, and holds
      every reduced orientation. */
  lemma AllOrbitSpec(h: Hexo)
    ensures forall i :: 0 <= i < 8 ==> AllOrbit(h)[i].hexo == h && Reduced(AllOrbit(h)[i].transform)
    ensures forall i, j :: 0 <= i < j < 8 ==> AllOrbit(h)[i] != AllOrbit(h)[j]
    ensures forall t :: Reduced(t) ==> RHexo(h, t) in AllOrbit(h)
  {
    forall t | Reduced(t) ensures RHexo(h, t) in AllOrbit(h) {
      var i := (if t.flipped then 4 else 0) + t.rotate;
      assert AllOrbit(h)[i] == RHexo(h, t);
    }
  }

  /** `RHexo::flip` and `RHexo::rotate` change only the orientation. */
  function FlipRHexo(r: RHexo): RHexo {
    r.(transform := FlipTransform(r.transform))
  }

  function RotateRHexo(r: RHexo): RHexo {
    r.(transform := RotateTransform(r.transform))
  }

  /** `RHexo::tiles`: the piece's cells in its orientation. */
  function RTiles(r: RHexo): (ts: seq<Pos>)
    requires ValidHexo(r.hexo)
    ensures |ts| == 6
  {
    seq(6, i requires 0 <= i < 6 => Apply(r.transform, Tiles(r.hexo)[i]))
  }

  /** The shift that puts an oriented unit square back on its cell:
      half of the image of (-1, -1) plus (1, 1). */
  function Offset(t: Transform): Pos {
    var o := Add(Apply(t, Pos(-1, -1)), Pos(1, 1));
    Pos(RustInt.Half(o.x), RustInt.Half(o.y))
  }

  /** An outline in an orientation, shifted by `Offset`. */
  function OrientBorders(t: Transform, borders: seq<Edge>): (r: seq<Edge>)
    ensures |r| == |borders|
  {
    seq(|borders|, i requires 0 <= i < |borders| =>
      Edge(Add(Apply(t, borders[i].p1), Offset(t)), Add(Apply(t, borders[i].p2), Offset(t))))
  }

  /** `RHexo::borders`. */
  function RBorders(r: RHexo): seq<Edge>
    requires ValidHexo(r.hexo)
  {
    OrientBorders(r.transform, Borders(r.hexo))
  }

  /** The offset of each reduced orientation: always a corner of the unit
      square. */
  lemma OffsetTable(t: Transform)
    requires Reduced(t)
    ensures Offset(t) == if !t.flipped then
        (if t.rotate == 0 then Pos(0, 0) else if t.rotate == 1 then Pos(0, 1)
         else if t.rotate == 2 then Pos(1, 1) else Pos(1, 0))
      else
        (if t.rotate == 0 then Pos(1, 0) else if t.rotate == 1 then Pos(1, 1)
         else if t.rotate == 2 then Pos(0, 1) else Pos(0, 0))
  {
  }

  /** `c` is one of the four corners of the unit square of the cell at `p`
      (the cell's own position, and one step up, right, or both). */
  predicate IsCellCorner(p: Pos, c: Pos) {
    p.x <= c.x <= p.x + 1 && p.y <= c.y <= p.y + 1
  }

  /** The image of a unit-square corner, shifted by the offset. */
  function CornerImage(t: Transform, e: Pos): Pos
    reads {}
  {
    Add(Apply(t, e), Offset(t))
  }

  /** The reduced orientation that undoes `t`: a mirrored one undoes
      itself, a plain one turns the rest of the way round. */
  function Inverse(t: Transform): (r: Transform)
    ensures Reduced(t) ==> Reduced(r)
  {
    if t.flipped then t
    else Transform(false, if t.rotate == 1 then 3 else if t.rotate == 3 then 1 else t.rotate)
  }

  /** `Inverse` undoes a reduced orientation, and is undone by it. */
  lemma InverseActs(t: Transform, p: Pos)
    requires Reduced(t)
    ensures Apply(Inverse(t), Apply(t, p)) == p
    ensures Inverse(Inverse(t)) == t
  {
  }

  /** An orientation never sends two positions to one. */
  lemma ApplyInjective(t: Transform, a: Pos, b: Pos)
    ensures Apply(t, a) == Apply(t, b) <==> a == b
  {
    if t.rotate > 0 && Apply(t, a) == Apply(t, b) {
      RotateInjective(t.rotate, a, b);
    }
  }

  lemma RotateInjective(k: Turns, a: Pos, b: Pos)
    requires RotateN(k, a) == RotateN(k, b)
    ensures a == b
  {
  }

  /** The shifted image of a unit-square corner is a unit-square corner. */
  lemma UnitCornerImage(t: Transform, e: Pos)
    requires Reduced(t) && IsCellCorner(Zero, e)
    ensures IsCellCorner(Zero, CornerImage(t, e))
  {
    OffsetTable(t);
  }

  /** The preimage `UnitCornerOnto` uses is a unit-square corner. */
  lemma UnitCornerPreimage(t: Transform, u: Pos)
    requires Reduced(t) && IsCellCorner(Zero, u)
    ensures IsCellCorner(Zero, Apply(Inverse(t), Pos(u.x - Offset(t).x, u.y - Offset(t).y)))
  {
    OffsetTable(t);
    var q := Pos(u.x - Offset(t).x, u.y - Offset(t).y);
    if !t.flipped {
      assert Apply(Inverse(t), q) == RotateN(Inverse(t).rotate, q);
    }
  }

  /** Every unit-square corner is the shifted image of one. */
  lemma UnitCornerOnto(t: Transform, u: Pos)
    requires Reduced(t) && IsCellCorner(Zero, u)
    ensures exists e :: IsCellCorner(Zero, e) && CornerImage(t, e) == u
  {
    var q := Pos(u.x - Offset(t).x, u.y - Offset(t).y);
    var e := Apply(Inverse(t), q);
    UnitCornerPreimage(t, u);
    InverseActs(Inverse(t), q);
    InverseActs(t, q);
    assert CornerImage(t, e) == u;
  }

  /** The offset is what makes outlines follow cells: a point is a corner
      of the cell at `p` exactly when its oriented, shifted image is a
      corner of the cell at the oriented `p`. */
  lemma OffsetKeepsCells(t: Transform, p: Pos, c: Pos)
    requires Reduced(t)
    ensures IsCellCorner(p, c) <==> IsCellCorner(Apply(t, p), CornerImage(t, c))
  {
    var e := Pos(c.x - p.x, c.y - p.y);
    assert c == Add(p, e);
    ApplyLinear(t, p, e);
    var u := CornerImage(t, e);
    assert CornerImage(t, c) == Add(Apply(t, p), u);
    if IsCellCorner(p, c) {
      UnitCornerImage(t, e);
    }
    if IsCellCorner(Apply(t, p), CornerImage(t, c)) {
      assert IsCellCorner(Zero, u);
      UnitCornerOnto(t, u);
      var e' :| IsCellCorner(Zero, e') && CornerImage(t, e') == u;
      ApplyInjective(t, e, e');
    }
  }

  /** Every corner of the cell at the oriented `p` is the image of a corner
      of the cell at `p`. */
  lemma OffsetCoversCells(t: Transform, p: Pos, c': Pos)
    requires Reduced(t) && IsCellCorner(Apply(t, p), c')
    ensures exists c :: IsCellCorner(p, c) && CornerImage(t, c) == c'
  {
    var u := Pos(c'.x - Apply(t, p).x, c'.y - Apply(t, p).y);
    UnitCornerOnto(t, u);
    var e :| IsCellCorner(Zero, e) && CornerImage(t, e) == u;
    ApplyLinear(t, p, e);
    OffsetKeepsCells(t, p, Add(p, e));
    assert CornerImage(t, Add(p, e)) == c';
  }

  /** Every piece has its first tile at the origin, which every
      orientation keeps, so a moved piece covers its own displacement. */
  lemma FirstTileAtDisplacement(m: MovedHexo)
    requires ValidHexo(m.rhexo.hexo)
    ensures MTiles(m)[0] == m.displacement
  {
    var h := m.rhexo.hexo;
    assert Tiles(h)[0] == Zero by { assert h.id == 0 || h.id == 1; }
    var z := Apply(m.rhexo.transform, Tiles(h)[0]);
    KeepOrigin(m.rhexo.transform.rotate);
    assert z == Zero;
    assert MTiles(m)[0] == Add(z, m.displacement);
  }

  /** A piece moved to a board position. */
  datatype MovedHexo = MovedHexo(rhexo: RHexo, displacement: Pos)

  /** `RHexo::move_to`. */
  function MoveTo(r: RHexo, d: Pos): MovedHexo {
    MovedHexo(r, d)
  }

  /** `MovedHexo::move_to`: a new position, same piece and orientation. */
  function MoveAgain(m: MovedHexo, d: Pos): (r: MovedHexo)
    ensures r.rhexo == m.rhexo && r.displacement == d
  {
    m.(displacement := d)
  }

  function MovedHexoOf(m: MovedHexo): Hexo {
    m.rhexo.hexo
  }

  /** `MovedHexo::tiles`: the oriented cells, shifted. */
  function MTiles(m: MovedHexo): (ts: seq<Pos>)
    requires ValidHexo(m.rhexo.hexo)
    ensures |ts| == 6
  {
    seq(6, i requires 0 <= i < 6 => Add(RTiles(m.rhexo)[i], m.displacement))
  }

  /** `MovedHexo::borders`: the oriented outline, shifted. */
  function MBorders(m: MovedHexo): (r: seq<Edge>)
    requires ValidHexo(m.rhexo.hexo)
    ensures |r| == |Borders(m.rhexo.hexo)|
  {
    var bs := RBorders(m.rhexo);
    seq(|bs|, i requires 0 <= i < |bs| =>
      Edge(Add(bs[i].p1, m.displacement), Add(bs[i].p2, m.displacement)))
  }

  /** Moving and then moving again is moving once; the tiles of a moved
      piece are its oriented tiles, translated, and so a move translates
      every tile by the difference of the two displacements. */
  lemma MoveSpec(m: MovedHexo, d: Pos)
    requires ValidHexo(m.rhexo.hexo)
    ensures MoveAgain(MoveAgain(m, d), d) == MoveAgain(m, d)
    ensures MoveAgain(MoveTo(m.rhexo, Zero), m.displacement) == m
    ensures forall i :: 0 <= i < 6 ==>
      MTiles(MoveAgain(m, d))[i] == Add(MTiles(MoveTo(m.rhexo, Zero))[i], d)
  {
    forall i | 0 <= i < 6
      ensures MTiles(MoveAgain(m, d))[i] == Add(MTiles(MoveTo(m.rhexo, Zero))[i], d)
    {
      AddMonoid(RTiles(m.rhexo)[i], Zero, d);
    }
  }

  /** A moved piece as the board records it, with the player who placed it. */
  datatype PlacedHexo = PlacedHexo(movedHexo: MovedHexo, player: Player)
}
