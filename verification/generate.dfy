/** Growing polyominoes one cell at a time, as the piece generator does:
    every free neighbour of every cell gives a candidate, each candidate is
    canonicalised, and the canonical shapes of size n are collected in a set. */
module Generate {
  import opened GenPoint
  import opened PolySort
  import opened Canon

  /** The four orthogonal neighbour offsets, in the generator's order. */
  const Offsets: seq<Point> := [Point(0, 1), Point(0, -1), Point(1, 0), Point(-1, 0)]

  /** The canonical shape obtained by adding the neighbour `k` of cell `j`,
      when that neighbour is not already a cell. */
  ghost predicate GrowsAt(poly: Poly, j: int, k: int, r: Poly)
    requires 0 <= j < |poly| && 0 <= k < 4
  {
    var q := Add(poly[j], Offsets[k]);
    q !in poly && r == Normalize(poly + [q])
  }

  /** `r` is a one-cell growth of `poly`. */
  ghost predicate IsGrowth(poly: Poly, r: Poly) {
    exists j, k :: 0 <= j < |poly| && 0 <= k < 4 && GrowsAt(poly, j, k, r)
  }

  /** `generate_from_poly`: every free neighbour of every cell, added and
      canonicalised, in loop order. */
  method GenerateFromPoly(poly: Poly) returns (grown: seq<Poly>)
    ensures forall r :: r in grown <==> IsGrowth(poly, r)
  {
    var points := set p | p in poly;
    grown := [];
    for j := 0 to |poly|
      invariant forall r :: r in grown <==>
        exists j', k :: 0 <= j' < j && 0 <= k < 4 && GrowsAt(poly, j', k, r)
    {
      for k := 0 to 4
        invariant forall r :: r in grown <==>
          (exists j', k' :: 0 <= j' < j && 0 <= k' < 4 && GrowsAt(poly, j', k', r)) ||
          (exists k' :: 0 <= k' < k && GrowsAt(poly, j, k', r))
      {
        var q := Add(poly[j], Offsets[k]);
        if q in points {
          assert forall r :: !GrowsAt(poly, j, k, r);
          continue;
        }
        var newPoly := NormalizeLoop(poly + [q]);
        assert GrowsAt(poly, j, k, newPoly);
        assert forall r :: GrowsAt(poly, j, k, r) ==> r == newPoly;
        grown := grown + [newPoly];
      }
    }
  }

  /** The shapes `generate(n)` returns: the single cell for n = 1, and
      otherwise every growth of a shape of size n - 1. */
  ghost predicate InGen(n: nat, r: Poly)
    decreases n
  {
    if n <= 1 then n == 1 && r == [Origin]
    else exists prev :: InGen(n - 1, prev) && IsGrowth(prev, r)
  }

  /** No shape occurs twice in the list. */
  ghost predicate NoDuplicates(polys: seq<Poly>) {
    forall i, j :: 0 <= i < j < |polys| ==> polys[i] != polys[j]
  }

  /** `list(results)`: the members of a set, each once, in an order the
      model does not fix. */
  method SetToList(results: set<Poly>) returns (polys: seq<Poly>)
    ensures forall r :: r in polys <==> r in results
    ensures NoDuplicates(polys)
  {
    polys := [];
    var rest := results;
    while rest != {}
      invariant forall r :: r in results <==> r in polys || r in rest
      invariant forall r :: r in polys ==> r !in rest
      invariant NoDuplicates(polys)
      decreases |rest|
    {
      var r :| r in rest;
      polys := polys + [r];
      rest := rest - {r};
    }
  }

  /** `generate(n)`: every shape it returns has n distinct, edge-connected
      cells in canonical form. The source recurses without end for n < 1. */
  method Generate(n: nat) returns (polys: seq<Poly>)
    requires n >= 1
    ensures forall r :: r in polys <==> InGen(n, r)
    ensures NoDuplicates(polys)
    ensures n == 1 ==> polys == [[Origin]]
    ensures forall r :: r in polys ==> ShapeOfSize(n, r)
    decreases n
  {
    if n == 1 {
      polys := [[Origin]];
    } else {
      var prevResults := Generate(n - 1);
      polys := NextGeneration(n, prevResults);
    }
    ListedShapes(n, polys);
  }

  /** One step of `generate`: from the shapes of size n - 1, the list of
      all their growths, without duplicates. */
  method NextGeneration(n: nat, prevResults: seq<Poly>) returns (polys: seq<Poly>)
    requires n >= 2
    requires forall r :: r in prevResults <==> InGen(n - 1, r)
    ensures forall r :: r in polys <==> InGen(n, r)
    ensures NoDuplicates(polys)
  {
    var results := GrowAll(prevResults);
    CollectedGrowths(n, prevResults, results);
    polys := SetToList(results);
  }

  /** The set `generate(n)` fills from the shapes of size n - 1: every
      growth of every one of them, and nothing else. */
  method GrowAll(prevResults: seq<Poly>) returns (results: set<Poly>)
    ensures forall r :: r in results <==>
      exists i :: 0 <= i < |prevResults| && IsGrowth(prevResults[i], r)
  {
    results := {};
    for i := 0 to |prevResults|
      invariant forall r :: r in results <==> exists i' :: 0 <= i' < i && IsGrowth(prevResults[i'], r)
    {
      var grown := GenerateFromPoly(prevResults[i]);
      results := results + set r | r in grown;
    }
  }

  /** `r` has n distinct, edge-connected cells and is in canonical form. */
  ghost predicate ShapeOfSize(n: nat, r: Poly) {
    |r| == n && Distinct(r) && Connected(r) && Normalize(r) == r
  }

  /** A list holding exactly the shapes of `generate(n)` holds only shapes
      of n distinct, edge-connected cells in canonical form. */
  lemma ListedShapes(n: nat, polys: seq<Poly>)
    requires forall r :: r in polys <==> InGen(n, r)
    ensures forall r :: r in polys ==> ShapeOfSize(n, r)
  {
    forall r | r in polys
      ensures ShapeOfSize(n, r)
    {
      GeneratedShape(n, r);
    }
  }

  /** Collecting the growths of every shape of size n - 1 gives exactly the
      shapes of size n. */
  lemma CollectedGrowths(n: nat, prevResults: seq<Poly>, results: set<Poly>)
    requires n >= 2
    requires forall r :: r in prevResults <==> InGen(n - 1, r)
    requires forall r :: r in results <==>
      exists i :: 0 <= i < |prevResults| && IsGrowth(prevResults[i], r)
    ensures forall r :: r in results <==> InGen(n, r)
  {
    forall r | r in results ensures InGen(n, r) {
      var i :| 0 <= i < |prevResults| && IsGrowth(prevResults[i], r);
      assert prevResults[i] in prevResults;
      InGenStep(n, prevResults[i], r);
    }
    forall r | InGen(n, r) ensures r in results {
      CollectedComplete(n, prevResults, r);
    }
  }

  lemma CollectedComplete(n: nat, prevResults: seq<Poly>, r: Poly)
    requires n >= 2 && InGen(n, r)
    requires forall r :: r in prevResults <==> InGen(n - 1, r)
    ensures exists i :: 0 <= i < |prevResults| && IsGrowth(prevResults[i], r)
  {
    var prev :| InGen(n - 1, prev) && IsGrowth(prev, r);
    assert prev in prevResults;
    var i :| 0 <= i < |prevResults| && prevResults[i] == prev;
    assert IsGrowth(prevResults[i], r);
  }

  lemma InGenStep(n: nat, prev: Poly, r: Poly)
    requires n >= 2 && InGen(n - 1, prev) && IsGrowth(prev, r)
    ensures InGen(n, r)
  {
  }

  // ---- Properties of the generated shapes ------------------------------------

  /** The cell a growth adds. */
  lemma GrowthCell(poly: Poly, r: Poly) returns (q: Point)
    requires IsGrowth(poly, r)
    ensures q !in poly && r == Normalize(poly + [q])
  {
    var j, k :| 0 <= j < |poly| && 0 <= k < 4 && GrowsAt(poly, j, k, r);
    q := Add(poly[j], Offsets[k]);
  }

  /** A growth has one more cell than its source, and no repeated cell when
      its source has none. */
  lemma GrowthShape(poly: Poly, r: Poly)
    requires IsGrowth(poly, r)
    ensures |r| == |poly| + 1
    ensures Distinct(poly) ==> Distinct(r)
    ensures Normalize(r) == r
  {
    var q := GrowthCell(poly, r);
    NormalizeShape(poly + [q]);
    if Distinct(poly) {
      assert Distinct(poly + [q]);
      NormalizeDistinct(poly + [q]);
    }
    NormalizeIdempotent(poly + [q]);
  }

  /** A shape of `generate(n)`, n >= 2, grows from one of `generate(n - 1)`. */
  lemma Predecessor(n: nat, r: Poly) returns (prev: Poly)
    requires n >= 2 && InGen(n, r)
    ensures InGen(n - 1, prev) && IsGrowth(prev, r)
  {
    prev :| InGen(n - 1, prev) && IsGrowth(prev, r);
  }

  /** The predecessor of a shape of `generate(n)`, n >= 2, with what the
      growth step keeps of it. */
  lemma GrownFrom(n: nat, r: Poly) returns (prev: Poly)
    requires n >= 2 && InGen(n, r)
    ensures InGen(n - 1, prev)
    ensures |r| == |prev| + 1 && (Distinct(prev) ==> Distinct(r))
  {
    prev := Predecessor(n, r);
    GrowthShape(prev, r);
  }

  /** The `minimal_repr` of a single cell is the origin. */
  lemma SingletonRepr(q: Poly)
    requires |q| == 1
    ensures MinimalRepr(q) == [Origin]
  {
    assert Sort(q) == q;
  }

  /** The canonical form of any single cell is the origin. */
  lemma SingleCellCanonical(p: Point)
    ensures Normalize([p]) == [Origin]
  {
    forall turns: nat, reflected: bool | turns < 4
      ensures MinimalRepr(Image([p], turns, reflected)) == [Origin]
    {
      SingletonRepr(Image([p], turns, reflected));
    }
    CandidatesListed([p]);
    NormalizeIsLeast([p]);
  }

  /** Every member of `generate(n)` has n distinct, edge-connected cells
      and is in canonical form (size, distinctness and connectivity by
      induction on n). */
  lemma GeneratedShape(n: nat, r: Poly)
    requires InGen(n, r)
    ensures |r| == n && Distinct(r) && Connected(r) && Normalize(r) == r
  {
    GeneratedSize(n, r);
    GeneratedDistinct(n, r);
    GeneratedConnected(n, r);
    if n == 1 {
      OneCellShape(r);
    } else {
      var prev := Predecessor(n, r);
      GrowthShape(prev, r);
    }
  }

  lemma {:induction false} GeneratedSize(n: nat, r: Poly)
    requires InGen(n, r)
    ensures |r| == n
    decreases n
  {
    if n > 1 {
      var prev := GrownFrom(n, r);
      GeneratedSize(n - 1, prev);
    }
  }

  lemma {:induction false} GeneratedDistinct(n: nat, r: Poly)
    requires InGen(n, r)
    ensures Distinct(r)
    decreases n
  {
    if n == 1 {
      OneCellShape(r);
    } else {
      var prev := GrownFrom(n, r);
      GeneratedDistinct(n - 1, prev);
    }
  }

  /** The base case: the single cell at the origin. */
  lemma OneCellShape(r: Poly)
    requires InGen(1, r)
    ensures |r| == 1 && Distinct(r) && Normalize(r) == r
  {
    assert r == [r[0]];
    SingleCellCanonical(r[0]);
  }

  /** The canonical shapes are exactly the fixed points of `normalize`, so
      each shape of `generate(n)` stands for a whole symmetry class: two
      members that are images of each other are equal. */
  lemma GeneratedUpToSymmetry(n: nat, a: Poly, b: Poly, turns: nat, reflected: bool, d: Point)
    requires InGen(n, a) && InGen(n, b)
    requires b == Translate(Image(a, turns, reflected), d)
    ensures a == b
  {
    GeneratedShape(n, a);
    GeneratedShape(n, b);
    NormalizeInvariant(a, turns, reflected, d);
  }

  // ---- Connectivity ------------------------------------------------------------

  /** Every cell after the first is adjacent to an earlier one: the shape
      can be laid down in this order one touching cell at a time. */
  ghost predicate Chain(s: Poly) {
    forall i :: 1 <= i < |s| ==> TouchesEarlier(s, i)
  }

  /** Cell `i` is adjacent to an earlier cell. */
  ghost predicate TouchesEarlier(s: Poly, i: int)
    requires 0 <= i < |s|
  {
    exists j :: 0 <= j < i && Adjacent(s[j], s[i])
  }

  /** Edge-connected: the cells, in some order, form a chain. */
  ghost predicate Connected(poly: Poly) {
    exists s :: multiset(s) == multiset(poly) && Chain(s)
  }

  /** A map that keeps adjacent cells adjacent keeps a chain a chain. */
  lemma MapChain(f: Point -> Point, s: Poly)
    requires forall a, b :: Adjacent(a, b) ==> Adjacent(f(a), f(b))
    requires Chain(s)
    ensures Chain(Map(f, s))
  {
    var t := Map(f, s);
    forall i | 1 <= i < |t| ensures TouchesEarlier(t, i) {
      assert TouchesEarlier(s, i);
      var j :| 0 <= j < i && Adjacent(s[j], s[i]);
      assert Adjacent(t[j], t[i]);
    }
  }

  /** ... and so keeps a shape connected. */
  lemma MapConnected(f: Point -> Point, poly: Poly)
    requires forall a, b :: Adjacent(a, b) ==> Adjacent(f(a), f(b))
    requires Connected(poly)
    ensures Connected(Map(f, poly))
  {
    var s :| multiset(s) == multiset(poly) && Chain(s);
    MapMultiset(f, s, poly);
    MapChain(f, s);
  }

  /** Turning a shape any number of times keeps it connected. */
  lemma {:induction false} RotateNConnected(k: nat, poly: Poly)
    requires Connected(poly)
    ensures Connected(RotatePolyN(k, poly))
  {
    if k > 0 {
      RotateNConnected(k - 1, poly);
      PolyMaps(RotatePolyN(k - 1, poly));
      forall a, b | Adjacent(a, b) ensures Adjacent(Rotate(a), Rotate(b)) {
        AdjacentKept(a, b, Origin);
      }
      MapConnected(Rotate, RotatePolyN(k - 1, poly));
    }
  }

  /** Every image of a connected shape, and its `minimal_repr`, are
      connected. */
  lemma CandidateConnected(poly: Poly, turns: nat, reflected: bool)
    requires Connected(poly)
    ensures Connected(Image(poly, turns, reflected))
    ensures Connected(MinimalRepr(Image(poly, turns, reflected)))
  {
    var turned := RotatePolyN(turns, poly);
    RotateNConnected(turns, poly);
    var image := Image(poly, turns, reflected);
    if reflected {
      PolyMaps(turned);
      forall a, b | Adjacent(a, b) ensures Adjacent(Reflect(a), Reflect(b)) {
        AdjacentKept(a, b, Origin);
      }
      MapConnected(Reflect, turned);
    }
    if |image| == 0 {
      assert MinimalRepr(image) == image;
    } else {
      var d := Sub(Origin, Sort(image)[0]);
      MinimalReprIsTranslatedPermutation(image);
      TranslateIsMap(image, d);
      forall a, b | Adjacent(a, b) ensures Adjacent(Add(a, d), Add(b, d)) {
        AdjacentKept(a, b, d);
      }
      MapConnected(p => Add(p, d), image);
      var s :| multiset(s) == multiset(Translate(image, d)) && Chain(s);
      assert multiset(s) == multiset(MinimalRepr(image));
    }
  }

  /** `normalize` keeps a shape connected. */
  lemma NormalizeConnected(poly: Poly)
    requires Connected(poly)
    ensures Connected(Normalize(poly))
  {
    var turns, reflected := NormalizeIsCandidate(poly);
    CandidateConnected(poly, turns, reflected);
  }

  /** Adding a free neighbour of a cell to a connected shape, then
      normalising, gives a connected shape. */
  lemma GrowthConnected(poly: Poly, r: Poly)
    requires Connected(poly) && IsGrowth(poly, r)
    ensures Connected(r)
  {
    var j, k :| 0 <= j < |poly| && 0 <= k < 4 && GrowsAt(poly, j, k, r);
    var q := Add(poly[j], Offsets[k]);
    var s :| multiset(s) == multiset(poly) && Chain(s);
    assert poly[j] in multiset(s);
    var at :| 0 <= at < |s| && s[at] == poly[j];
    var t := s + [q];
    forall i | 1 <= i < |t| ensures TouchesEarlier(t, i) {
      if i < |s| {
        assert TouchesEarlier(s, i);
        var j :| 0 <= j < i && Adjacent(s[j], s[i]);
        assert t[j] == s[j] && t[i] == s[i];
      } else {
        assert Adjacent(t[at], t[i]);
      }
    }
    assert Chain(t);
    assert multiset(t) == multiset(poly + [q]);
    NormalizeConnected(poly + [q]);
  }

  /** Every member of `generate(n)` is edge-connected. */
  lemma {:induction false} GeneratedConnected(n: nat, r: Poly)
    requires InGen(n, r)
    ensures Connected(r)
    decreases n
  {
    if n == 1 {
      assert Chain(r);
    } else {
      var prev := Predecessor(n, r);
      GeneratedConnected(n - 1, prev);
      GrowthConnected(prev, r);
    }
  }

  // ---- Columns -------------------------------------------------------------------

  /** A straight column of `n` cells going up from the origin. */
  function Column(n: nat): (r: Poly)
    ensures |r| == n
  {
    seq(n, i requires 0 <= i < n => Point(0, i))
  }

  /** A sorted shape without repeats whose cell `k - 1` is that of the
      column is not below the column from cell `k` on: each later cell is
      above the one before, so no earlier than the column's. */
  lemma {:induction false} ColumnIsLeast(r: Poly, k: nat)
    requires 1 <= k <= |r| && Sorted(r) && Distinct(r)
    requires r[k - 1] == Point(0, k - 1)
    ensures !PolyLt(r[k..], Column(|r|)[k..])
    decreases |r| - k
  {
    if k < |r| {
      var c := Column(|r|);
      assert Le(r[k - 1], r[k]) && r[k - 1] != r[k];
      if r[k] == c[k] {
        ColumnIsLeast(r, k + 1);
        assert r[k..][1..] == r[k + 1..] && c[k..][1..] == c[k + 1..];
      }
    }
  }

  /** A shape of distinct cells one of whose candidates is the column of
      as many cells has the column as canonical form: no sorted shape of
      distinct cells from the origin is below the column. */
  lemma ColumnWhenCandidate(poly: Poly)
    requires |poly| >= 1 && Distinct(poly)
    requires Column(|poly|) in Candidates(poly)
    ensures Normalize(poly) == Column(|poly|)
  {
    var c := Column(|poly|);
    var m := Normalize(poly);
    NormalizeIsLeast(poly);
    NormalizeShape(poly);
    NormalizeDistinct(poly);
    ColumnIsLeast(m, 1);
    assert !PolyLt(m, c) by {
      assert m[0] == c[0];
    }
    PolyLtStrictTotal(m, c);
  }

  /** A column is its own canonical form: it is its own candidate 0. */
  lemma ColumnCanonical(n: nat)
    requires n >= 1
    ensures Normalize(Column(n)) == Column(n)
  {
    var c := Column(n);
    SortSorted(c);
    assert MinimalRepr(c) == c;
    CandidateAt(c, 0);
    assert Candidates(c)[0] == c;
    ColumnWhenCandidate(c);
  }

  /** Every column is generated: the column of `n` cells grows from the
      column of `n - 1` by the free cell above its top. */
  lemma {:induction false} ColumnGenerated(n: nat)
    requires n >= 1
    ensures InGen(n, Column(n))
  {
    if n == 1 {
      assert Column(1) == [Origin];
    } else {
      var prev := Column(n - 1);
      ColumnGenerated(n - 1);
      var q := Add(prev[n - 2], Offsets[0]);
      assert q == Point(0, n - 1);
      assert prev + [q] == Column(n);
      ColumnCanonical(n);
      assert GrowsAt(prev, n - 2, 0, Column(n));
      InGenStep(n, prev, Column(n));
    }
  }

  /** The `minimal_repr` of two cells, in either order, is the origin and
      the step from the lesser cell to the greater. */
  lemma PairRepr(a: Point, b: Point)
    requires Lt(a, b)
    ensures MinimalRepr([a, b]) == [Origin, Sub(b, a)]
    ensures MinimalRepr([b, a]) == [Origin, Sub(b, a)]
  {
    PairSort(a, b);
    var m := MinimalRepr([a, b]);
    assert m == [Sub(a, a), Sub(b, a)];
  }

  /** Two cells sort into the same list in either order. */
  lemma PairSort(a: Point, b: Point)
    requires Lt(a, b)
    ensures Sort([a, b]) == [a, b] && Sort([b, a]) == [a, b]
  {
    var s := [a, b];
    assert Sorted(s);
    SortSorted(s);
    SortSpec([b, a]);
    assert multiset([b, a]) == multiset(s);
    SortedUnique(Sort([b, a]), s);
  }

  /** A vertical domino from the origin, up or down, has the upright
      domino as `minimal_repr`. */
  lemma VerticalRepr(q: Point)
    requires q == Point(0, 1) || q == Point(0, -1)
    ensures MinimalRepr([Origin, q]) == Column(2)
  {
    assert Column(2) == [Origin, Point(0, 1)];
    if q.y == 1 {
      PairRepr(Origin, q);
    } else {
      PairRepr(q, Origin);
    }
  }

  /** The upright domino is candidate 0 of a vertical domino from the
      origin. */
  lemma VerticalCandidate(q: Point)
    requires q == Point(0, 1) || q == Point(0, -1)
    ensures Candidates([Origin, q])[0] == Column(2)
  {
    var x := [Origin, q];
    assert Image(x, 0, false) == x;
    VerticalRepr(q);
    CandidateAt(x, 0);
  }

  /** The upright domino is candidate 2, one turn, of a horizontal domino
      from the origin. */
  lemma HorizontalCandidate(q: Point)
    requires q == Point(1, 0) || q == Point(-1, 0)
    ensures Candidates([Origin, q])[2] == Column(2)
  {
    var x := [Origin, q];
    var y := RotatePoly(x);
    var r := Rotate(q);
    assert r == Point(0, 1) || r == Point(0, -1);
    assert y == [Origin, r] by {
      assert |y| == 2 && y[0] == Rotate(Origin) && y[1] == r;
    }
    assert Image(x, 1, false) == y by {
      assert RotatePolyN(1, x) == RotatePoly(RotatePolyN(0, x));
    }
    VerticalRepr(r);
    CandidateAt(x, 1);
  }

  /** Every domino from the origin normalises to the upright domino. */
  lemma DominoCanonical(q: Point)
    requires Adjacent(Origin, q)
    ensures Normalize([Origin, q]) == Column(2)
  {
    if q.x == 0 {
      VerticalCandidate(q);
    } else {
      HorizontalCandidate(q);
    }
    ColumnWhenCandidate([Origin, q]);
  }

  /** `generate(2)` is the domino alone: each of the four growths of the
      single cell normalises to the vertical domino. */
  lemma DominoOnly(r: Poly)
    ensures InGen(2, r) <==> r == [Origin, Point(0, 1)]
  {
    assert Column(2) == [Origin, Point(0, 1)];
    if InGen(2, r) {
      var prev := Predecessor(2, r);
      assert prev == [Origin];
      var j, k :| 0 <= j < 1 && 0 <= k < 4 && GrowsAt(prev, j, k, r);
      var q := Add(prev[j], Offsets[k]);
      assert prev + [q] == [Origin, q] && Adjacent(Origin, q);
      DominoCanonical(q);
    }
    if r == Column(2) {
      ColumnGenerated(2);
    }
  }
}
