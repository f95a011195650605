/** The outline of a shape, as the piece generator computes it: every cell
    contributes its four unit sides, each written with its order-larger
    corner first; a `Counter` tallies them, and the sides counted once are
    the outline, in the order the counter first met them. */
module Borders {
  import opened GenPoint
  import opened PolySort
  import opened Canon
  import opened Generate

  /** A unit side, larger corner first. */
  datatype Edge = Edge(hi: Point, lo: Point)

  /** The corners of the unit cell, in the order the sides are walked. */
  const Corners: seq<Point> := [Point(0, 0), Point(0, 1), Point(1, 1), Point(1, 0)]

  /** Side `i` of the cell at `tile`: corners i and i + 1 (mod 4), swapped
      when the first is the smaller. */
  function Side(tile: Point, i: int): (e: Edge)
    requires 0 <= i < 4
    ensures Lt(e.lo, e.hi)
  {
    var d1 := Corners[i];
    var d2 := Corners[if i == 3 then 0 else i + 1];  // (i + 1) mod 4
    LtIsStrictTotalOrder(d1, d2, tile);
    LtIsStrictTotalOrder(d2, d1, tile);
    if Lt(d1, d2) then Edge(Add(tile, d2), Add(tile, d1)) else Edge(Add(tile, d1), Add(tile, d2))
  }

  function CellSides(tile: Point): (r: seq<Edge>)
    ensures |r| == 4
  {
    [Side(tile, 0), Side(tile, 1), Side(tile, 2), Side(tile, 3)]
  }

  /** Every side of every cell, in loop order. */
  function AllSides(poly: Poly): (r: seq<Edge>)
    ensures |r| == 4 * |poly|
  {
    if |poly| == 0 then [] else AllSides(poly[..|poly| - 1]) + CellSides(poly[|poly| - 1])
  }

  /** The distinct members of `s` in order of first occurrence: the key
      order of a Python dict filled from `s`. */
  function Dedup(s: seq<Edge>): seq<Edge> {
    if |s| == 0 then []
    else
      var d := Dedup(s[..|s| - 1]);
      if s[|s| - 1] in d then d else d + [s[|s| - 1]]
  }

  /** The keys whose tally in `all` is one, in key order. */
  function SelectOnce(keys: seq<Edge>, all: seq<Edge>): seq<Edge> {
    if |keys| == 0 then []
    else
      var rest := SelectOnce(keys[..|keys| - 1], all);
      if multiset(all)[keys[|keys| - 1]] == 1 then rest + [keys[|keys| - 1]] else rest
  }

  /** The outline `hexo_borders` returns. */
  function OuterBorders(poly: Poly): seq<Edge> {
    SelectOnce(Dedup(AllSides(poly)), AllSides(poly))
  }

  /** The counter state after tallying `seen`: its keys in first-insertion
      order, and the tally of each key. */
  ghost predicate Tallies(seen: seq<Edge>, keys: seq<Edge>, counter: map<Edge, nat>) {
    && keys == Dedup(seen)
    && (forall e :: e in counter <==> e in seen)
    && (forall e :: e in counter ==> counter[e] == multiset(seen)[e])
  }

  /** `counter[e] += 1` keeps the counter in step with the tallied sides. */
  lemma TallyStep(seen: seq<Edge>, e: Edge, keys: seq<Edge>, counter: map<Edge, nat>)
    requires Tallies(seen, keys, counter)
    ensures e in counter ==> Tallies(seen + [e], keys, counter[e := counter[e] + 1])
    ensures e !in counter ==> Tallies(seen + [e], keys + [e], counter[e := 1])
  {
    DedupMembers(seen);
    assert (seen + [e])[..|seen|] == seen;
  }

  /** The counting half of `hexo_borders`: every side of every cell, in
      loop order, goes through `counter[border] += 1`. */
  method CountSides(poly: Poly) returns (keys: seq<Edge>, counter: map<Edge, nat>)
    ensures Tallies(AllSides(poly), keys, counter)
  {
    keys := [];
    counter := map[];
    for t := 0 to |poly|
      invariant Tallies(AllSides(poly[..t]), keys, counter)
    {
      keys, counter := CountCell(poly[t], AllSides(poly[..t]), keys, counter);
      assert poly[..t + 1][..t] == poly[..t];
    }
    assert poly[..|poly|] == poly;
  }

  /** One pass of the inner loop: the four sides of `tile` are counted on
      top of the sides `seen` so far. */
  method CountCell(tile: Point, ghost seen: seq<Edge>, keys0: seq<Edge>, counter0: map<Edge, nat>)
    returns (keys: seq<Edge>, counter: map<Edge, nat>)
    requires Tallies(seen, keys0, counter0)
    ensures Tallies(seen + CellSides(tile), keys, counter)
  {
    keys, counter := keys0, counter0;
    ghost var now := seen;
    assert seen + CellSides(tile)[..0] == seen;
    for i := 0 to 4
      invariant now == seen + CellSides(tile)[..i]
      invariant Tallies(now, keys, counter)
    {
      var border := Side(tile, i);
      keys, counter := CountSide(border, now, keys, counter);
      CellSidesPrefix(tile, i);
      now := now + [border];
    }
    assert CellSides(tile)[..4] == CellSides(tile);
  }

  /** `counter[border] += 1`, the key list growing when the side is new. */
  method CountSide(border: Edge, ghost seen: seq<Edge>, keys0: seq<Edge>, counter0: map<Edge, nat>)
    returns (keys: seq<Edge>, counter: map<Edge, nat>)
    requires Tallies(seen, keys0, counter0)
    ensures Tallies(seen + [border], keys, counter)
  {
    TallyStep(seen, border, keys0, counter0);
    if border in counter0 {
      keys, counter := keys0, counter0[border := counter0[border] + 1];
    } else {
      keys, counter := keys0 + [border], counter0[border := 1];
    }
  }

  lemma CellSidesPrefix(tile: Point, i: int)
    requires 0 <= i < 4
    ensures CellSides(tile)[..i + 1] == CellSides(tile)[..i] + [Side(tile, i)]
  {
  }

  /** `hexo_borders`: tally every side in a counter, then keep the sides
      counted once, in the counter's key order. */
  method HexoBorders(poly: Poly) returns (borders: seq<Edge>)
    ensures borders == OuterBorders(poly)
  {
    var keys, counter := CountSides(poly);
    ghost var all := AllSides(poly);
    DedupMembers(all);
    assert forall e :: e in keys ==> e in counter && counter[e] == multiset(all)[e];
    borders := SelectTallied(keys, counter, all);
  }

  /** The second loop of `hexo_borders`: the keys whose tally is one, in key
      order. */
  method SelectTallied(keys: seq<Edge>, counter: map<Edge, nat>, ghost all: seq<Edge>)
    returns (borders: seq<Edge>)
    requires forall e :: e in keys ==> e in counter && counter[e] == multiset(all)[e]
    ensures borders == SelectOnce(keys, all)
  {
    borders := [];
    for k := 0 to |keys|
      invariant borders == SelectOnce(keys[..k], all)
    {
      assert keys[..k + 1][..k] == keys[..k];
      assert keys[k] in keys;
      if counter[keys[k]] == 1 {
        borders := borders + [keys[k]];
      }
    }
    assert keys[..|keys|] == keys;
  }

  // ---- Properties of the outline ---------------------------------------------

  /** `Dedup` keeps exactly the members, each once. */
  lemma {:induction false} DedupMembers(s: seq<Edge>)
    ensures forall e :: e in Dedup(s) <==> e in s
    ensures forall i, j :: 0 <= i < j < |Dedup(s)| ==> Dedup(s)[i] != Dedup(s)[j]
  {
    if |s| > 0 {
      DedupMembers(s[..|s| - 1]);
      assert s == s[..|s| - 1] + [s[|s| - 1]];
    }
  }

  /** `SelectOnce` keeps exactly the keys tallied once, in key order. */
  lemma {:induction false} SelectOnceMembers(keys: seq<Edge>, all: seq<Edge>)
    ensures forall e :: e in SelectOnce(keys, all) <==> e in keys && multiset(all)[e] == 1
    ensures (forall i, j :: 0 <= i < j < |keys| ==> keys[i] != keys[j]) ==>
      forall i, j :: 0 <= i < j < |SelectOnce(keys, all)| ==>
        SelectOnce(keys, all)[i] != SelectOnce(keys, all)[j]
  {
    if |keys| > 0 {
      var init := keys[..|keys| - 1];
      SelectOnceMembers(init, all);
      assert keys == init + [keys[|keys| - 1]];
    }
  }

  /** The outline holds exactly the sides that belong to one cell only,
      each once, with the larger corner first. */
  lemma OuterBordersSpec(poly: Poly)
    ensures forall e :: e in OuterBorders(poly) <==> multiset(AllSides(poly))[e] == 1
    ensures forall i, j :: 0 <= i < j < |OuterBorders(poly)| ==>
      OuterBorders(poly)[i] != OuterBorders(poly)[j]
    ensures forall e :: e in OuterBorders(poly) ==> Lt(e.lo, e.hi)
  {
    var all := AllSides(poly);
    DedupMembers(all);
    SelectOnceMembers(Dedup(all), all);
    forall e | e in OuterBorders(poly) ensures Lt(e.lo, e.hi) {
      AllSidesOrdered(poly, e);
    }
  }

  lemma {:induction false} AllSidesOrdered(poly: Poly, e: Edge)
    requires e in AllSides(poly)
    ensures Lt(e.lo, e.hi)
  {
    if |poly| > 0 {
      var init := poly[..|poly| - 1];
      if e in AllSides(init) {
        AllSidesOrdered(init, e);
      }
    }
  }

  /** A side shared by two cells is tallied twice and never reaches the
      outline. */
  lemma SharedSideLeftOut(poly: Poly, e: Edge, i: int, j: int)
    requires 0 <= i < j < |poly|
    requires e in CellSides(poly[i]) && e in CellSides(poly[j])
    ensures e !in OuterBorders(poly)
  {
    TallyAtLeastTwo(poly, e, i, j);
    OuterBordersSpec(poly);
  }

  lemma {:induction false} TallyAtLeastOne(poly: Poly, e: Edge, i: int)
    requires 0 <= i < |poly| && e in CellSides(poly[i])
    ensures multiset(AllSides(poly))[e] >= 1
  {
    var init := poly[..|poly| - 1];
    if i < |poly| - 1 {
      assert init[i] == poly[i];
      TallyAtLeastOne(init, e, i);
    }
  }

  lemma {:induction false} TallyAtLeastTwo(poly: Poly, e: Edge, i: int, j: int)
    requires 0 <= i < j < |poly|
    requires e in CellSides(poly[i]) && e in CellSides(poly[j])
    ensures multiset(AllSides(poly))[e] >= 2
  {
    var init := poly[..|poly| - 1];
    assert init[i] == poly[i];
    if j < |poly| - 1 {
      assert init[j] == poly[j];
      TallyAtLeastTwo(init, e, i, j);
    } else {
      TallyAtLeastOne(init, e, i);
    }
  }

  /** Keys all tallied once are all selected. */
  lemma {:induction false} SelectOnceAll(keys: seq<Edge>, all: seq<Edge>)
    requires forall i :: 0 <= i < |keys| ==> multiset(all)[keys[i]] == 1
    ensures SelectOnce(keys, all) == keys
  {
    if |keys| > 0 {
      SelectOnceAll(keys[..|keys| - 1], all);
    }
  }

  /** The outline of a single cell is its four sides, in walking order. */
  lemma SingleCellBorders(p: Point)
    ensures OuterBorders([p]) == CellSides(p)
    ensures |OuterBorders([p])| == 4
  {
    var sides := CellSides(p);
    assert AllSides([p]) == sides;
    CellSidesDistinct(p);
    assert multiset(sides) == multiset{sides[0], sides[1], sides[2], sides[3]} by {
      assert sides == [sides[0], sides[1], sides[2], sides[3]];
    }
    SelectOnceAll(sides, sides);
  }

  /** The outline of a domino: the side the two cells share is dropped,
      leaving six of the eight sides. */
  lemma DominoBorders()
    ensures OuterBorders([Origin, Point(1, 0)]) ==
      [Edge(Point(0, 1), Point(0, 0)), Edge(Point(1, 1), Point(0, 1)), Edge(Point(1, 0), Point(0, 0)),
       Edge(Point(2, 1), Point(1, 1)), Edge(Point(2, 1), Point(2, 0)), Edge(Point(2, 0), Point(1, 0))]
    ensures |OuterBorders([Origin, Point(1, 0)])| == 6
  {
    var a, b := DominoSides();
    DominoDistinct(a, b);
    DominoOutline([Origin, Point(1, 0)], a, b);
  }

  /** Two cells sharing exactly one side, the third of the first cell's
      and the first of the second's: the outline is the other six sides,
      in the counter's order. */
  lemma DominoOutline(poly: Poly, a: seq<Edge>, b: seq<Edge>)
    requires AllSides(poly) == a + b
    requires |a| == 4 && |b| == 4 && b[0] == a[2] && Dedup(a) == a
    requires forall i, j :: 0 <= i < j < 4 ==> a[i] != a[j] && b[i] != b[j]
    requires forall i, j :: 0 <= i < 4 && 1 <= j < 4 ==> a[i] != b[j]
    ensures OuterBorders(poly) == [a[0], a[1], a[3], b[1], b[2], b[3]]
  {
    assert b[1] !in a && b[2] !in a + [b[1]] && b[3] !in a + [b[1], b[2]] by {
      assert a == [a[0], a[1], a[2], a[3]];
    }
    DominoKeys(a, b);
    DominoSelect(a, b, a + b[1..], a + b);
  }

  /** Of the domino's seven keys, selection keeps all but the shared
      side. */
  lemma DominoSelect(a: seq<Edge>, b: seq<Edge>, keys: seq<Edge>, all: seq<Edge>)
    requires |a| == 4 && |b| == 4 && b[0] == a[2]
    requires forall i, j :: 0 <= i < j < 4 ==> a[i] != a[j] && b[i] != b[j]
    requires forall i, j :: 0 <= i < 4 && 1 <= j < 4 ==> a[i] != b[j]
    requires keys == a + b[1..] && all == a + b
    ensures SelectOnce(keys, all) == [a[0], a[1], a[3], b[1], b[2], b[3]]
  {
    DominoCounts(a, b, keys, all);
    SelectAllButThird(keys, all);
    assert keys[..2] + keys[3..] == [a[0], a[1], a[3], b[1], b[2], b[3]];
  }

  /** The domino's sides: each cell's four differ, and only the shared one
      is common to both. */
  lemma DominoDistinct(a: seq<Edge>, b: seq<Edge>)
    requires a == [Edge(Point(0, 1), Point(0, 0)), Edge(Point(1, 1), Point(0, 1)),
                   Edge(Point(1, 1), Point(1, 0)), Edge(Point(1, 0), Point(0, 0))]
    requires b == [Edge(Point(1, 1), Point(1, 0)), Edge(Point(2, 1), Point(1, 1)),
                   Edge(Point(2, 1), Point(2, 0)), Edge(Point(2, 0), Point(1, 0))]
    requires a == CellSides(Origin)
    ensures b[0] == a[2] && Dedup(a) == a
    ensures forall i, j :: 0 <= i < j < 4 ==> a[i] != a[j] && b[i] != b[j]
    ensures forall i, j :: 0 <= i < 4 && 1 <= j < 4 ==> a[i] != b[j]
  {
    CellSidesDistinct(Origin);
  }

  /** How often each key of the domino occurs among its sides. */
  lemma DominoCounts(a: seq<Edge>, b: seq<Edge>, keys: seq<Edge>, all: seq<Edge>)
    requires |a| == 4 && |b| == 4 && b[0] == a[2]
    requires forall i, j :: 0 <= i < j < 4 ==> a[i] != a[j] && b[i] != b[j]
    requires forall i, j :: 0 <= i < 4 && 1 <= j < 4 ==> a[i] != b[j]
    requires keys == a + b[1..] && all == a + b
    ensures |keys| == 7
    ensures multiset(all)[keys[0]] == 1 && multiset(all)[keys[1]] == 1 && multiset(all)[keys[2]] == 2
    ensures multiset(all)[keys[3]] == 1 && multiset(all)[keys[4]] == 1
    ensures multiset(all)[keys[5]] == 1 && multiset(all)[keys[6]] == 1
  {
    var m := multiset(all);
    assert m == multiset(a) + multiset(b);
    assert multiset(a) == multiset{a[0], a[1], a[2], a[3]} by {
      assert a == [a[0], a[1], a[2], a[3]];
    }
    assert multiset(b) == multiset{b[0], b[1], b[2], b[3]} by {
      assert b == [b[0], b[1], b[2], b[3]];
    }
  }

  /** Selecting the keys counted once from seven keys whose third is
      counted twice drops just that key. */
  lemma SelectAllButThird(keys: seq<Edge>, all: seq<Edge>)
    requires |keys| == 7
    requires multiset(all)[keys[0]] == 1 && multiset(all)[keys[1]] == 1 && multiset(all)[keys[2]] == 2
    requires multiset(all)[keys[3]] == 1 && multiset(all)[keys[4]] == 1
    requires multiset(all)[keys[5]] == 1 && multiset(all)[keys[6]] == 1
    ensures SelectOnce(keys, all) == keys[..2] + keys[3..]
  {
    assert keys[..1][..0] == [];
    assert SelectOnce(keys[..1], all) == [keys[0]];
    assert keys[..2][..1] == keys[..1];
    assert SelectOnce(keys[..2], all) == [keys[0], keys[1]];
    assert keys[..3][..2] == keys[..2];
    assert SelectOnce(keys[..3], all) == [keys[0], keys[1]];
    assert keys[..4][..3] == keys[..3];
    assert SelectOnce(keys[..4], all) == [keys[0], keys[1], keys[3]];
    assert keys[..5][..4] == keys[..4];
    assert SelectOnce(keys[..5], all) == [keys[0], keys[1], keys[3], keys[4]];
    assert keys[..6][..5] == keys[..5];
    assert SelectOnce(keys[..6], all) == [keys[0], keys[1], keys[3], keys[4], keys[5]];
    assert keys[..7][..6] == keys[..6] && keys[..7] == keys;
    assert SelectOnce(keys, all) == [keys[0], keys[1], keys[3], keys[4], keys[5], keys[6]];
  }

  /** The sides of the domino's two cells, in loop order. */
  lemma DominoSides() returns (a: seq<Edge>, b: seq<Edge>)
    ensures a == [Edge(Point(0, 1), Point(0, 0)), Edge(Point(1, 1), Point(0, 1)),
                  Edge(Point(1, 1), Point(1, 0)), Edge(Point(1, 0), Point(0, 0))]
    ensures b == [Edge(Point(1, 1), Point(1, 0)), Edge(Point(2, 1), Point(1, 1)),
                  Edge(Point(2, 1), Point(2, 0)), Edge(Point(2, 0), Point(1, 0))]
    ensures a == CellSides(Origin) && AllSides([Origin, Point(1, 0)]) == a + b
  {
    a, b := CellSides(Origin), CellSides(Point(1, 0));
    var poly := [Origin, Point(1, 0)];
    assert AllSides(poly[..1]) == a by {
      assert poly[..1][..0] == [];
    }
  }

  /** The counter meets the shared side a second time and adds no key. */
  lemma DominoKeys(a: seq<Edge>, b: seq<Edge>)
    requires |a| == 4 && |b| == 4 && Dedup(a) == a
    requires b[0] == a[2] && b[1] !in a && b[2] !in a + [b[1]] && b[3] !in a + [b[1], b[2]]
    ensures Dedup(a + b) == a + b[1..]
  {
    var all := a + b;
    assert all[..4] == a;
    assert all[..5][..4] == a;
    assert Dedup(all[..5]) == a;
    assert all[..6][..5] == all[..5];
    assert Dedup(all[..6]) == a + [b[1]];
    assert all[..7][..6] == all[..6];
    assert Dedup(all[..7]) == a + [b[1], b[2]];
    assert all[..8] == all && all[..7] == all[..8][..7];
  }

  /** The four sides of a cell differ, so the counter keeps them all. */
  lemma CellSidesDistinct(p: Point)
    ensures Dedup(CellSides(p)) == CellSides(p)
  {
    var sides := CellSides(p);
    assert sides[0] != sides[1] && sides[0] != sides[2] && sides[0] != sides[3];
    assert sides[1] != sides[2] && sides[1] != sides[3] && sides[2] != sides[3];
    assert Dedup(sides[..1]) == sides[..1];
    assert sides[..2][..1] == sides[..1];
    assert Dedup(sides[..2]) == sides[..2];
    assert sides[..3][..2] == sides[..2];
    assert Dedup(sides[..3]) == sides[..3];
    assert sides[..4] == sides;
    assert sides[..4][..3] == sides[..3];
  }

  // ---- The size of the outline -------------------------------------------------

  /** The cell across side `i` of `tile`: the one to the left, above, to
      the right, below. */
  function Across(tile: Point, i: int): Point
    requires 0 <= i < 4
    reads {}
  {
    if i == 0 then Point(tile.x - 1, tile.y)
    else if i == 1 then Point(tile.x, tile.y + 1)
    else if i == 2 then Point(tile.x + 1, tile.y)
    else Point(tile.x, tile.y - 1)
  }

  /** How many cells of `poly` are adjacent to `c`. */
  function AdjacentTo(c: Point, poly: Poly): nat {
    if |poly| == 0 then 0
    else AdjacentTo(c, poly[..|poly| - 1]) + if Adjacent(poly[|poly| - 1], c) then 1 else 0
  }

  /** The pairs of adjacent cells of `poly`, each counted once, at the
      later of its two cells. */
  function AdjacentPairs(poly: Poly): nat {
    if |poly| == 0 then 0
    else AdjacentPairs(poly[..|poly| - 1]) + AdjacentTo(poly[|poly| - 1], poly[..|poly| - 1])
  }

  /** How many of the four cells around `c` are in `poly`. */
  function NeighbourCount(c: Point, poly: Poly): nat {
    (if Across(c, 0) in poly then 1 else 0) + (if Across(c, 1) in poly then 1 else 0) +
    (if Across(c, 2) in poly then 1 else 0) + (if Across(c, 3) in poly then 1 else 0)
  }

  /** The sides tallied exactly once. */
  ghost function Once(tally: multiset<Edge>): set<Edge> {
    set e | e in tally && tally[e] == 1
  }

  /** The size of the outline of distinct cells: four sides per cell,
      less two for every pair of adjacent cells, whose shared side is
      tallied twice and left out. */
  lemma OutlineSize(poly: Poly)
    requires Distinct(poly)
    ensures |OuterBorders(poly)| == 4 * |poly| - 2 * AdjacentPairs(poly)
  {
    OutlineIsOnce(poly);
    OnceSize(poly);
  }

  /** The outline has one entry per side tallied once. */
  lemma OutlineIsOnce(poly: Poly)
    ensures |OuterBorders(poly)| == |Once(multiset(AllSides(poly)))|
  {
    OuterBordersSpec(poly);
    OnceListed(OuterBorders(poly), AllSides(poly));
  }

  /** A list of the sides tallied once, each once, is as long as there
      are such sides. */
  lemma OnceListed(s: seq<Edge>, all: seq<Edge>)
    requires forall e :: e in s <==> multiset(all)[e] == 1
    requires forall i, j :: 0 <= i < j < |s| ==> s[i] != s[j]
    ensures |s| == |Once(multiset(all))|
  {
    assert Once(multiset(all)) == set e | e in s;
    DistinctCard(s);
  }

  /** A sequence without repeats has as many members as entries. */
  lemma {:induction false} DistinctCard(s: seq<Edge>)
    requires forall i, j :: 0 <= i < j < |s| ==> s[i] != s[j]
    ensures |set e | e in s| == |s|
  {
    if |s| > 0 {
      var init := s[..|s| - 1];
      DistinctCard(init);
      assert s == init + [s[|s| - 1]];
      assert (set e | e in s) == (set e | e in init) + {s[|s| - 1]};
    }
  }

  /** Cell by cell: each new cell adds four sides to the sides tallied
      once and takes back two for each earlier neighbour. */
  lemma {:induction false} OnceSize(poly: Poly)
    requires Distinct(poly)
    ensures |Once(multiset(AllSides(poly)))| == 4 * |poly| - 2 * AdjacentPairs(poly)
  {
    if |poly| > 0 {
      var init, c := poly[..|poly| - 1], poly[|poly| - 1];
      DistinctSplit(poly);
      OnceSize(init);
      CellStep(init, c);
      NeighboursAreAdjacent(c, init);
    }
  }

  /** Adding a new cell's four sides: a side whose neighbour is already
      there goes from tallied once to twice, the others from none to once. */
  lemma CellStep(init: Poly, c: Point)
    requires Distinct(init) && c !in init
    ensures |Once(multiset(AllSides(init) + CellSides(c)))| ==
      |Once(multiset(AllSides(init)))| + 4 - 2 * NeighbourCount(c, init)
  {
    var tally, s := multiset(AllSides(init)), CellSides(c);
    var k := NeighbourCount(c, init);
    assert tally[s[0]] <= 1 && tally[s[1]] <= 1 && tally[s[2]] <= 1 && tally[s[3]] <= 1 &&
      tally[s[0]] + tally[s[1]] + tally[s[2]] + tally[s[3]] == k by {
      SideTally(init, c, 0);
      SideTally(init, c, 1);
      SideTally(init, c, 2);
      SideTally(init, c, 3);
    }
    SidesDiffer(c);
    OnceAppendFour(tally, s);
    assert multiset(AllSides(init) + s) == tally + multiset(s);
  }


  /** Appending four different sides, each tallied at most once before:
      each adds one to the sides tallied once, less two for each that was
      tallied already. */
  lemma OnceAppendFour(tally: multiset<Edge>, s: seq<Edge>)
    requires |s| == 4 && forall i, j :: 0 <= i < j < 4 ==> s[i] != s[j]
    requires tally[s[0]] <= 1 && tally[s[1]] <= 1 && tally[s[2]] <= 1 && tally[s[3]] <= 1
    ensures |Once(tally + multiset(s))| == |Once(tally)| + 4 -
      2 * (tally[s[0]] + tally[s[1]] + tally[s[2]] + tally[s[3]])
  {
    var t1 := tally + multiset{s[0]};
    var t2 := t1 + multiset{s[1]};
    var t3 := t2 + multiset{s[2]};
    OnceAppend(tally, s[0]);
    OnceAppend(t1, s[1]);
    OnceAppend(t2, s[2]);
    OnceAppend(t3, s[3]);
    assert t1[s[1]] == tally[s[1]] && t2[s[2]] == tally[s[2]] && t3[s[3]] == tally[s[3]];
    assert multiset(s) == multiset{s[0]} + multiset{s[1]} + multiset{s[2]} + multiset{s[3]} by {
      assert s == [s[0]] + [s[1]] + [s[2]] + [s[3]];
    }
    assert tally + multiset(s) == t3 + multiset{s[3]};
  }

  /** Appending one side: it joins the sides tallied once if it was not
      tallied, leaves them if it was tallied once, and nothing else changes. */
  lemma OnceAppend(tally: multiset<Edge>, e: Edge)
    ensures |Once(tally + multiset{e})| ==
      |Once(tally)| + if tally[e] == 0 then 1 else if tally[e] == 1 then -1 else 0
  {
    if tally[e] == 0 {
      assert Once(tally + multiset{e}) == Once(tally) + {e};
    } else if tally[e] == 1 {
      assert Once(tally + multiset{e}) == Once(tally) - {e};
    } else {
      assert Once(tally + multiset{e}) == Once(tally);
    }
  }

  /** Among distinct cells without `c`, side `i` of `c` is tallied once if
      the cell across it is there, and not at all otherwise. */
  lemma {:induction false} SideTally(init: Poly, c: Point, i: int)
    requires Distinct(init) && c !in init && 0 <= i < 4
    ensures multiset(AllSides(init))[Side(c, i)] == if Across(c, i) in init then 1 else 0
  {
    if |init| > 0 {
      var rest, u := init[..|init| - 1], init[|init| - 1];
      DistinctSplit(init);
      SideTally(rest, c, i);
      LastCellTally(init, c, i);
      LastSplit(init, Side(c, i));
      LastMember(init, Across(c, i));
    }
  }

  /** The last cell of `init`, which is not `c`, holds side `i` of `c`
      exactly when it is the cell across that side. */
  lemma LastCellTally(init: Poly, c: Point, i: int)
    requires |init| > 0 && c !in init && 0 <= i < 4
    ensures multiset(CellSides(init[|init| - 1]))[Side(c, i)] ==
      if init[|init| - 1] == Across(c, i) then 1 else 0
  {
    var u := init[|init| - 1];
    assert u in init;
    CellTally(u, Side(c, i));
    SharedSide(c, i, u);
  }

  /** The tally of an edge splits off the last cell. */
  lemma LastSplit(init: Poly, e: Edge)
    requires |init| > 0
    ensures multiset(AllSides(init))[e] ==
      multiset(AllSides(init[..|init| - 1]))[e] + multiset(CellSides(init[|init| - 1]))[e]
  {
    assert multiset(AllSides(init)) ==
      multiset(AllSides(init[..|init| - 1])) + multiset(CellSides(init[|init| - 1]));
  }

  /** Membership splits off the last cell. */
  lemma LastMember(init: Poly, a: Point)
    requires |init| > 0
    ensures (a in init) == (a in init[..|init| - 1] || a == init[|init| - 1])
  {
    assert init == init[..|init| - 1] + [init[|init| - 1]];
  }

  /** Distinct cells without the last: still distinct, and without it. */
  lemma DistinctSplit(poly: Poly)
    requires Distinct(poly) && |poly| > 0
    ensures Distinct(poly[..|poly| - 1]) && poly[|poly| - 1] !in poly[..|poly| - 1]
  {
    var init := poly[..|poly| - 1];
    forall i, j | 0 <= i < j < |init| ensures init[i] != init[j] {
      assert init[i] == poly[i] && init[j] == poly[j];
    }
    forall i | 0 <= i < |init| ensures init[i] != poly[|poly| - 1] {
      assert init[i] == poly[i];
    }
  }

  /** A cell's sides are tallied once each among its own sides. */
  lemma CellTally(u: Point, e: Edge)
    ensures multiset(CellSides(u))[e] == if e in CellSides(u) then 1 else 0
  {
    var s := CellSides(u);
    CellSidesDistinct(u);
    DedupMembers(s);
    assert multiset(s) == multiset{s[0], s[1], s[2], s[3]} by {
      assert s == [s[0], s[1], s[2], s[3]];
    }
  }

  /** The only other cell with side `i` of `c` among its sides is the one
      across it. */
  lemma SharedSide(c: Point, i: int, u: Point)
    requires 0 <= i < 4 && u != c
    ensures Side(c, i) in CellSides(u) <==> u == Across(c, i)
  {
    SideForm(c);
    SideForm(u);
  }

  /** The four sides of a cell differ. */
  lemma SidesDiffer(t: Point)
    ensures forall i, j :: 0 <= i < j < 4 ==> CellSides(t)[i] != CellSides(t)[j]
  {
    SideForm(t);
  }

  /** The four sides of `t` written out: left, top, right, bottom. */
  lemma SideForm(t: Point)
    ensures Side(t, 0) == Edge(Point(t.x, t.y + 1), t)
    ensures Side(t, 1) == Edge(Point(t.x + 1, t.y + 1), Point(t.x, t.y + 1))
    ensures Side(t, 2) == Edge(Point(t.x + 1, t.y + 1), Point(t.x + 1, t.y))
    ensures Side(t, 3) == Edge(Point(t.x + 1, t.y), t)
  {
  }

  /** Among distinct cells, the cells around `c` that are present are the
      cells adjacent to `c`. */
  lemma {:induction false} NeighboursAreAdjacent(c: Point, init: Poly)
    requires Distinct(init)
    ensures NeighbourCount(c, init) == AdjacentTo(c, init)
  {
    if |init| > 0 {
      var rest, u := init[..|init| - 1], init[|init| - 1];
      assert init == rest + [u];
      DistinctSplit(init);
      NeighboursAreAdjacent(c, rest);
      assert NeighbourCount(c, init) == NeighbourCount(c, rest) +
        (if u == Across(c, 0) then 1 else 0) + (if u == Across(c, 1) then 1 else 0) +
        (if u == Across(c, 2) then 1 else 0) + (if u == Across(c, 3) then 1 else 0);
    }
  }

  /** `hexo_to_repr` for the emitted table: the cells and their outline. */
  datatype HexoRepr = HexoRepr(tiles: Poly, borders: seq<Edge>)

  datatype ReprResult = Repr(repr: HexoRepr) | AssertionError

  /** `hexo_to_repr`: asserts that the shape has six cells. */
  function HexoToRepr(poly: Poly): (r: ReprResult)
    ensures r.Repr? <==> |poly| == 6
    ensures r.Repr? ==> r.repr.tiles == poly && r.repr.borders == OuterBorders(poly)
  {
    if |poly| != 6 then AssertionError else Repr(HexoRepr(poly, OuterBorders(poly)))
  }

  /** The straight shape the emitted table leaves out. */
  const StraightI: Poly := [Point(0, 0), Point(0, 1), Point(0, 2), Point(0, 3), Point(0, 4), Point(0, 5)]

  /** The shape the table leaves out is the straight column, which
      `generate(6)` yields in canonical form, so the filter drops exactly
      one generated shape. */
  lemma StraightIGenerated(generated: seq<Poly>)
    requires forall r :: r in generated <==> InGen(6, r)
    ensures StraightI == Column(6) && Normalize(StraightI) == StraightI
    ensures StraightI in generated && StraightI !in EmittedShapes(generated)
  {
    assert StraightI == Column(6);
    ColumnCanonical(6);
    ColumnGenerated(6);
  }

  /** The shapes the emitted table holds: the generated ones except the
      straight shape, in generation order. */
  function EmittedShapes(generated: seq<Poly>): (r: seq<Poly>)
    ensures forall p :: p in r <==> p in generated && p != StraightI
  {
    if |generated| == 0 then []
    else
      var rest := EmittedShapes(generated[..|generated| - 1]);
      var last := generated[|generated| - 1];
      assert generated == generated[..|generated| - 1] + [last];
      if last == StraightI then rest else rest + [last]
  }

  /** Every shape of `generate(6)` passes the six-cell assertion, and the
      straight shape is not emitted. */
  lemma EmittedReprsSucceed(generated: seq<Poly>)
    requires forall r :: r in generated ==> InGen(6, r)
    ensures forall p :: p in EmittedShapes(generated) ==> p != StraightI && HexoToRepr(p).Repr?
  {
    forall p | p in EmittedShapes(generated) ensures |p| == 6 {
      GeneratedShape(6, p);
    }
  }
}
