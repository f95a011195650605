/** The canonicaliser of gen.py: `minimal_repr` sorts a poly and moves its
    least point to the origin; `normalize` takes the least `minimal_repr`
    over the eight images met by four rounds of (the poly, its reflection)
    followed by a quarter turn. */
module Canon {
  import opened GenPoint
  import opened PolySort

  function ReflectPoly(poly: Poly): (r: Poly)
    ensures |r| == |poly|
  {
    seq(|poly|, i requires 0 <= i < |poly| => Reflect(poly[i]))
  }

  function RotatePoly(poly: Poly): (r: Poly)
    ensures |r| == |poly|
  {
    seq(|poly|, i requires 0 <= i < |poly| => Rotate(poly[i]))
  }

  lemma PolyMaps(poly: Poly)
    ensures ReflectPoly(poly) == Map(Reflect, poly)
    ensures RotatePoly(poly) == Map(Rotate, poly)
  {
  }

  /** `RotatePoly` applied k times. */
  function RotatePolyN(k: nat, poly: Poly): (r: Poly)
    ensures |r| == |poly|
  {
    if k == 0 then poly else RotatePoly(RotatePolyN(k - 1, poly))
  }

  /** The poly sorted and shifted so that its least point is the origin. */
  function MinimalRepr(poly: Poly): (r: Poly)
    ensures |r| == |poly|
  {
    var points := Sort(poly);
    seq(|points|, i requires 0 <= i < |points| => Sub(points[i], points[0]))
  }

  /** When the poly is not empty, `minimal_repr` is its sorted form
      translated by minus its least point. */
  lemma MinimalReprIsTranslatedSort(poly: Poly)
    requires |poly| > 0
    ensures MinimalRepr(poly) == Translate(Sort(poly), Sub(Origin, Sort(poly)[0]))
  {
    var points := Sort(poly);
    var d := Sub(Origin, points[0]);
    var m := MinimalRepr(poly);
    var t := Translate(points, d);
    forall i | 0 <= i < |points| ensures m[i] == t[i] {
      assert m[i] == Sub(points[i], points[0]);
      assert t[i] == Add(points[i], d);
      AddSubRoundTrip(points[i], points[0]);
    }
    assert m == t;
  }

  /** `minimal_repr` is sorted and starts at the origin. */
  lemma MinimalReprShape(poly: Poly)
    ensures Sorted(MinimalRepr(poly))
    ensures |poly| > 0 ==> MinimalRepr(poly)[0] == Origin
  {
    SortSpec(poly);
    if |poly| > 0 {
      var points := Sort(poly);
      MinimalReprIsTranslatedSort(poly);
      TranslatePreserves(points, points, Sub(Origin, points[0]));
    }
  }

  /** The image of the poly after `turns` quarter turns, reflected or not. */
  function Image(poly: Poly, turns: nat, reflected: bool): (r: Poly)
    ensures |r| == |poly|
  {
    var turned := RotatePolyN(turns, poly);
    if reflected then ReflectPoly(turned) else turned
  }

  /** The `minimal_repr` of the eight images, in the order the generator
      yields them: each turned poly, then its reflection. */
  function Candidates(poly: Poly): (r: seq<Poly>)
    ensures |r| == 8
  {
    seq(8, j requires 0 <= j < 8 => Candidate(poly, j))
  }

  /** Candidate `j`: the `minimal_repr` of the poly after `j / 2` quarter
      turns, reflected when `j` is odd. Each round of the generator turns
      the poly once more, so candidate `j + 2` is candidate `j` of the
      turned poly. */
  function Candidate(poly: Poly, j: nat): Poly
    decreases j
  {
    if j >= 2 then Candidate(RotatePoly(poly), j - 2)
    else if j == 1 then MinimalRepr(ReflectPoly(poly))
    else MinimalRepr(poly)
  }

  /** Candidate `2 * turns` is the turned image, the next one its reflection. */
  lemma {:induction false} CandidateImage(poly: Poly, turns: nat, reflected: bool)
    ensures Candidate(poly, 2 * turns + (if reflected then 1 else 0))
         == MinimalRepr(Image(poly, turns, reflected))
    decreases turns
  {
    if turns > 0 {
      CandidateImage(RotatePoly(poly), turns - 1, reflected);
      RotatePolyNShift(turns - 1, poly);
    }
  }

  lemma CandidateAt(poly: Poly, i: nat)
    requires i < 4
    ensures Candidates(poly)[2 * i] == MinimalRepr(Image(poly, i, false))
    ensures Candidates(poly)[2 * i + 1] == MinimalRepr(Image(poly, i, true))
  {
    CandidateImage(poly, i, false);
    CandidateImage(poly, i, true);
  }

  /** The candidates written out, in the generator's order. */
  lemma CandidatesListed(poly: Poly)
    ensures Candidates(poly)
         == [MinimalRepr(Image(poly, 0, false)), MinimalRepr(Image(poly, 0, true)),
             MinimalRepr(Image(poly, 1, false)), MinimalRepr(Image(poly, 1, true)),
             MinimalRepr(Image(poly, 2, false)), MinimalRepr(Image(poly, 2, true)),
             MinimalRepr(Image(poly, 3, false)), MinimalRepr(Image(poly, 3, true))]
  {
    CandidateAt(poly, 0);
    CandidateAt(poly, 1);
    CandidateAt(poly, 2);
    CandidateAt(poly, 3);
  }

  /** Python's `min` over a non-empty list: the running minimum, replaced
      only by a strictly smaller item. */
  function MinOf(list: seq<Poly>): Poly
    requires |list| > 0
  {
    if |list| == 1 then list[0]
    else
      var m := MinOf(list[..|list| - 1]);
      var c := list[|list| - 1];
      if PolyLt(c, m) then c else m
  }

  /** `MinOf` returns a member that no member is smaller than. */
  lemma {:induction false} MinOfSpec(list: seq<Poly>)
    requires |list| > 0
    ensures MinOf(list) in list
    ensures forall c :: c in list ==> !PolyLt(c, MinOf(list))
  {
    if |list| == 1 {
      PolyLtStrictTotal(list[0], list[0]);
    } else {
      var prefix := list[..|list| - 1];
      var m := MinOf(prefix);
      var c := list[|list| - 1];
      MinOfSpec(prefix);
      assert list == prefix + [c];
      if PolyLt(c, m) {
        forall d | d in prefix ensures !PolyLt(d, c) {
          PolyLtStrictTotal(d, m);
          if PolyLt(m, d) { PolyLtTransitive(c, m, d); }
          PolyLtStrictTotal(c, d);
        }
        PolyLtStrictTotal(c, c);
      }
    }
  }

  /** The canonical form: the least candidate. */
  function Normalize(poly: Poly): Poly {
    MinOf(Candidates(poly))
  }

  /** `normalize` is a candidate, and no candidate is smaller. */
  lemma NormalizeIsLeast(poly: Poly)
    ensures Normalize(poly) in Candidates(poly)
    ensures forall c :: c in Candidates(poly) ==> !PolyLt(c, Normalize(poly))
  {
    MinOfSpec(Candidates(poly));
  }

  /** The canonical form is sorted and starts at the origin. */
  lemma NormalizeShape(poly: Poly)
    ensures |Normalize(poly)| == |poly|
    ensures Sorted(Normalize(poly))
    ensures |poly| > 0 ==> Normalize(poly)[0] == Origin
  {
    var turns, reflected := NormalizeIsCandidate(poly);
    MinimalReprShape(Image(poly, turns, reflected));
  }

  /** `normalize` as the generator runs it: four rounds that each offer the
      current poly and its reflection to a running minimum, then turn the
      current poly a quarter. */
  method NormalizeLoop(poly0: Poly) returns (minRepr: Poly)
    ensures minRepr == Normalize(poly0)
  {
    ghost var list := Candidates(poly0);
    var poly := poly0;
    CandidateAt(poly0, 0);
    minRepr := MinimalRepr(poly);
    for i := 0 to 4
      invariant poly == RotatePolyN(i, poly0)
      invariant i == 0 ==> minRepr == list[0]
      invariant i > 0 ==> minRepr == MinOf(list[..2 * i])
    {
      CandidateAt(poly0, i);
      if i > 0 {
        minRepr := Offer(MinimalRepr(poly), minRepr, list, 2 * i);
      } else {
        assert minRepr == MinOf(list[..1]);
      }
      minRepr := Offer(MinimalRepr(ReflectPoly(poly)), minRepr, list, 2 * i + 1);
      poly := RotatePoly(poly);
    }
    assert list[..8] == list;
  }

  /** `min` meeting one more item: it replaces the running minimum only when
      strictly smaller. */
  method Offer(c: Poly, minRepr: Poly, ghost list: seq<Poly>, ghost j: nat) returns (m: Poly)
    requires 0 < j < |list| && list[j] == c
    requires minRepr == MinOf(list[..j])
    ensures m == MinOf(list[..j + 1])
  {
    MinOfSnoc(list, j);
    m := if PolyLt(c, minRepr) then c else minRepr;
  }

  /** One step of the running minimum. */
  lemma MinOfSnoc(list: seq<Poly>, j: nat)
    requires 0 < j < |list|
    ensures MinOf(list[..j + 1])
         == if PolyLt(list[j], MinOf(list[..j])) then list[j] else MinOf(list[..j])
    ensures j == 1 ==> MinOf(list[..j]) == list[0]
  {
    assert list[..j + 1][..j] == list[..j];
  }

  // ---- Uniqueness of the minimum -------------------------------------------

  lemma MinUnique(list: seq<Poly>, a: Poly, b: Poly)
    requires a in list && b in list
    requires forall c :: c in list ==> !PolyLt(c, a)
    requires forall c :: c in list ==> !PolyLt(c, b)
    ensures a == b
  {
    PolyLtStrictTotal(a, b);
  }

  /** Two lists with the same members have the same minimum. */
  lemma SameMembersSameMin(l1: seq<Poly>, l2: seq<Poly>)
    requires |l1| > 0 && |l2| > 0
    requires forall c :: c in l1 <==> c in l2
    ensures MinOf(l1) == MinOf(l2)
  {
    MinOfSpec(l1);
    MinOfSpec(l2);
    MinUnique(l1, MinOf(l1), MinOf(l2));
  }

  // ---- Pointwise facts about the images --------------------------------------

  lemma {:induction false} RotatePolyNAt(k: nat, poly: Poly, i: int)
    requires 0 <= i < |poly|
    ensures RotatePolyN(k, poly)[i] == RotateN(k, poly[i])
  {
    if k > 0 {
      RotatePolyNAt(k - 1, poly, i);
    }
  }

  lemma {:induction false} RotateNShift(k: nat, p: Point)
    ensures RotateN(k, Rotate(p)) == RotateN(k + 1, p)
  {
    if k > 0 {
      RotateNShift(k - 1, p);
    }
  }

  /** Turning k times after one turn is turning k + 1 times. */
  lemma RotatePolyNShift(k: nat, poly: Poly)
    ensures RotatePolyN(k, RotatePoly(poly)) == RotatePolyN(k + 1, poly)
  {
    forall i | 0 <= i < |poly|
      ensures RotatePolyN(k, RotatePoly(poly))[i] == RotatePolyN(k + 1, poly)[i]
    {
      RotatePolyNAt(k, RotatePoly(poly), i);
      RotatePolyNAt(k + 1, poly, i);
      RotateNShift(k, poly[i]);
    }
  }

  /** Four turns are the identity. */
  lemma RotatePolyFour(poly: Poly)
    ensures RotatePolyN(4, poly) == poly
  {
    forall i | 0 <= i < |poly| ensures RotatePolyN(4, poly)[i] == poly[i] {
      RotatePolyNAt(4, poly, i);
      RotateFourTimes(poly[i]);
    }
  }

  /** Turning a reflected poly k times is reflecting the poly turned 4 - k
      times. */
  lemma RotateReflected(k: nat, poly: Poly)
    requires 1 <= k <= 3
    ensures RotatePolyN(k, ReflectPoly(poly)) == ReflectPoly(RotatePolyN(4 - k, poly))
  {
    forall i | 0 <= i < |poly|
      ensures RotatePolyN(k, ReflectPoly(poly))[i] == ReflectPoly(RotatePolyN(4 - k, poly))[i]
    {
      RotatePolyNAt(k, ReflectPoly(poly), i);
      RotatePolyNAt(4 - k, poly, i);
      RotateAfterReflect(poly[i]);
      RotateUnfold(Reflect(poly[i]));
      RotateUnfold(poly[i]);
    }
  }

  lemma ReflectTwice(poly: Poly)
    ensures ReflectPoly(ReflectPoly(poly)) == poly
  {
    forall i | 0 <= i < |poly| ensures ReflectPoly(ReflectPoly(poly))[i] == poly[i] {
      ReflectInvolution(poly[i]);
    }
  }

  // ---- Symmetry invariance ---------------------------------------------------

  /** The images of a turned poly are the images of the poly, shifted by one turn. */
  lemma ImagesOfRotated(poly: Poly, reflected: bool)
    ensures Image(RotatePoly(poly), 0, reflected) == Image(poly, 1, reflected)
    ensures Image(RotatePoly(poly), 1, reflected) == Image(poly, 2, reflected)
    ensures Image(RotatePoly(poly), 2, reflected) == Image(poly, 3, reflected)
    ensures Image(RotatePoly(poly), 3, reflected) == Image(poly, 0, reflected)
  {
    RotatePolyNShift(0, poly);
    RotatePolyNShift(1, poly);
    RotatePolyNShift(2, poly);
    RotatePolyNShift(3, poly);
    RotatePolyFour(poly);
  }

  /** The images of a reflected poly are the images of the poly, with the
      reflection flag flipped and the turns negated. */
  lemma ImagesOfReflected(poly: Poly, reflected: bool)
    ensures Image(ReflectPoly(poly), 0, reflected) == Image(poly, 0, !reflected)
    ensures Image(ReflectPoly(poly), 1, reflected) == Image(poly, 3, !reflected)
    ensures Image(ReflectPoly(poly), 2, reflected) == Image(poly, 2, !reflected)
    ensures Image(ReflectPoly(poly), 3, reflected) == Image(poly, 1, !reflected)
  {
    ReflectTwice(poly);
    RotateReflected(1, poly);
    RotateReflected(2, poly);
    RotateReflected(3, poly);
    ReflectTwice(RotatePolyN(1, poly));
    ReflectTwice(RotatePolyN(2, poly));
    ReflectTwice(RotatePolyN(3, poly));
  }

  /** A quarter turn of the input permutes the candidates. */
  lemma NormalizeRotate(poly: Poly)
    ensures Normalize(RotatePoly(poly)) == Normalize(poly)
  {
    ImagesOfRotated(poly, false);
    ImagesOfRotated(poly, true);
    CandidatesListed(RotatePoly(poly));
    CandidatesListed(poly);
    SameMembersSameMin(Candidates(RotatePoly(poly)), Candidates(poly));
  }

  /** A reflection of the input permutes the candidates. */
  lemma NormalizeReflect(poly: Poly)
    ensures Normalize(ReflectPoly(poly)) == Normalize(poly)
  {
    ImagesOfReflected(poly, false);
    ImagesOfReflected(poly, true);
    CandidatesListed(ReflectPoly(poly));
    CandidatesListed(poly);
    SameMembersSameMin(Candidates(ReflectPoly(poly)), Candidates(poly));
  }

  lemma {:induction false} NormalizeRotateN(k: nat, poly: Poly)
    ensures Normalize(RotatePolyN(k, poly)) == Normalize(poly)
  {
    if k > 0 {
      NormalizeRotateN(k - 1, poly);
      NormalizeRotate(RotatePolyN(k - 1, poly));
    }
  }

  /** Every image has the canonical form of the poly itself. */
  lemma NormalizeImage(poly: Poly, turns: nat, reflected: bool)
    ensures Normalize(Image(poly, turns, reflected)) == Normalize(poly)
  {
    NormalizeRotateN(turns, poly);
    if reflected {
      NormalizeReflect(RotatePolyN(turns, poly));
    }
  }

  // ---- Translation invariance ------------------------------------------------

  lemma MinimalReprTranslate(poly: Poly, d: Point)
    ensures MinimalRepr(Translate(poly, d)) == MinimalRepr(poly)
  {
    SortTranslate(poly, d);
  }

  lemma {:induction false} RotatePolyNTranslate(k: nat, poly: Poly, d: Point)
    ensures RotatePolyN(k, Translate(poly, d)) == Translate(RotatePolyN(k, poly), RotateN(k, d))
  {
    if k > 0 {
      RotatePolyNTranslate(k - 1, poly, d);
      var q := RotatePolyN(k - 1, poly);
      forall i | 0 <= i < |poly|
        ensures RotatePoly(Translate(q, RotateN(k - 1, d)))[i]
             == Translate(RotatePoly(q), RotateN(k, d))[i]
      {
        TransformsAreLinear(q[i], RotateN(k - 1, d));
      }
    }
  }

  lemma ReflectPolyTranslate(poly: Poly, d: Point)
    ensures ReflectPoly(Translate(poly, d)) == Translate(ReflectPoly(poly), Reflect(d))
  {
    forall i | 0 <= i < |poly|
      ensures ReflectPoly(Translate(poly, d))[i] == Translate(ReflectPoly(poly), Reflect(d))[i]
    {
      TransformsAreLinear(poly[i], d);
    }
  }

  /** Translating the input leaves each candidate unchanged. */
  lemma CandidateTranslate(poly: Poly, d: Point, turns: nat, reflected: bool)
    ensures MinimalRepr(Image(Translate(poly, d), turns, reflected))
         == MinimalRepr(Image(poly, turns, reflected))
  {
    var turned := RotatePolyN(turns, poly);
    RotatePolyNTranslate(turns, poly, d);
    MinimalReprTranslate(turned, RotateN(turns, d));
    ReflectPolyTranslate(turned, RotateN(turns, d));
    MinimalReprTranslate(ReflectPoly(turned), Reflect(RotateN(turns, d)));
  }

  lemma NormalizeTranslate(poly: Poly, d: Point)
    ensures Normalize(Translate(poly, d)) == Normalize(poly)
  {
    forall turns: nat, reflected: bool | turns < 4
      ensures MinimalRepr(Image(Translate(poly, d), turns, reflected))
           == MinimalRepr(Image(poly, turns, reflected))
    {
      CandidateTranslate(poly, d, turns, reflected);
    }
    CandidatesListed(Translate(poly, d));
    CandidatesListed(poly);
  }

  // ---- Permutation invariance and idempotence ------------------------------

  lemma {:induction false} RotatePolyNPermutation(k: nat, a: Poly, b: Poly)
    requires multiset(a) == multiset(b)
    ensures multiset(RotatePolyN(k, a)) == multiset(RotatePolyN(k, b))
  {
    if k > 0 {
      RotatePolyNPermutation(k - 1, a, b);
      PolyMaps(RotatePolyN(k - 1, a));
      PolyMaps(RotatePolyN(k - 1, b));
      MapMultiset(Rotate, RotatePolyN(k - 1, a), RotatePolyN(k - 1, b));
    }
  }

  /** Permuting the input leaves each candidate unchanged. */
  lemma CandidatePermutation(a: Poly, b: Poly, turns: nat, reflected: bool)
    requires multiset(a) == multiset(b)
    ensures MinimalRepr(Image(a, turns, reflected)) == MinimalRepr(Image(b, turns, reflected))
  {
    var ta := RotatePolyN(turns, a);
    var tb := RotatePolyN(turns, b);
    RotatePolyNPermutation(turns, a, b);
    SortPermutation(ta, tb);
    PolyMaps(ta);
    PolyMaps(tb);
    MapMultiset(Reflect, ta, tb);
    SortPermutation(ReflectPoly(ta), ReflectPoly(tb));
  }

  /** The canonical form depends only on the multiset of cells. */
  lemma NormalizePermutation(a: Poly, b: Poly)
    requires multiset(a) == multiset(b)
    ensures Normalize(a) == Normalize(b)
  {
    forall turns: nat, reflected: bool | turns < 4
      ensures MinimalRepr(Image(a, turns, reflected)) == MinimalRepr(Image(b, turns, reflected))
    {
      CandidatePermutation(a, b, turns, reflected);
    }
    CandidatesListed(a);
    CandidatesListed(b);
  }

  /** `minimal_repr` is a translate of a permutation of its input. */
  lemma MinimalReprIsTranslatedPermutation(poly: Poly)
    requires |poly| > 0
    ensures multiset(MinimalRepr(poly)) == multiset(Translate(poly, Sub(Origin, Sort(poly)[0])))
  {
    var points := Sort(poly);
    SortSpec(poly);
    MinimalReprIsTranslatedSort(poly);
    TranslatePreserves(points, poly, Sub(Origin, points[0]));
  }

  /** A candidate has the canonical form of the poly it came from. */
  lemma NormalizeCandidate(poly: Poly, turns: nat, reflected: bool)
    ensures Normalize(MinimalRepr(Image(poly, turns, reflected))) == Normalize(poly)
  {
    var image := Image(poly, turns, reflected);
    if |image| > 0 {
      MinimalReprIsTranslatedPermutation(image);
      var d := Sub(Origin, Sort(image)[0]);
      NormalizePermutation(MinimalRepr(image), Translate(image, d));
      NormalizeTranslate(image, d);
    } else {
      assert MinimalRepr(image) == image;
    }
    NormalizeImage(poly, turns, reflected);
  }

  /** The canonical form is the `minimal_repr` of one of the eight images. */
  lemma NormalizeIsCandidate(poly: Poly) returns (turns: nat, reflected: bool)
    ensures turns < 4
    ensures Normalize(poly) == MinimalRepr(Image(poly, turns, reflected))
  {
    var list := Candidates(poly);
    NormalizeIsLeast(poly);
    var j :| 0 <= j < 8 && list[j] == Normalize(poly);
    turns, reflected := j / 2, j % 2 == 1;
    assert j == 2 * turns + (if reflected then 1 else 0);
    CandidateImage(poly, turns, reflected);
  }

  /** Normalising twice is normalising once. */
  lemma NormalizeIdempotent(poly: Poly)
    ensures Normalize(Normalize(poly)) == Normalize(poly)
  {
    var turns, reflected := NormalizeIsCandidate(poly);
    NormalizeCandidate(poly, turns, reflected);
  }

  /** Any rotation, reflection or translation of a poly has its canonical form. */
  lemma NormalizeInvariant(poly: Poly, turns: nat, reflected: bool, d: Point)
    ensures Normalize(Translate(Image(poly, turns, reflected), d)) == Normalize(poly)
  {
    NormalizeTranslate(Image(poly, turns, reflected), d);
    NormalizeImage(poly, turns, reflected);
  }

  lemma {:induction false} RotateNInjective(k: nat, a: Point, b: Point)
    requires a != b
    ensures RotateN(k, a) != RotateN(k, b)
  {
    if k > 0 {
      RotateNInjective(k - 1, a, b);
    }
  }

  /** A candidate of a poly without repeated cells has no repeated cells. */
  lemma CandidateDistinct(poly: Poly, turns: nat, reflected: bool)
    requires Distinct(poly)
    ensures Distinct(MinimalRepr(Image(poly, turns, reflected)))
  {
    var turned := RotatePolyN(turns, poly);
    forall a, b | 0 <= a < b < |poly| ensures turned[a] != turned[b] {
      RotatePolyNAt(turns, poly, a);
      RotatePolyNAt(turns, poly, b);
      RotateNInjective(turns, poly[a], poly[b]);
    }
    var image := Image(poly, turns, reflected);
    assert Distinct(image);
    var points := Sort(image);
    SortSpec(image);
    DistinctPermutation(image, points);
    if |poly| > 0 {
      MinimalReprIsTranslatedSort(image);
      TranslatePreserves(points, points, Sub(Origin, points[0]));
    }
  }

  /** The canonical form of a poly without repeated cells has none either. */
  lemma NormalizeDistinct(poly: Poly)
    requires Distinct(poly)
    ensures Distinct(Normalize(poly))
  {
    var turns, reflected := NormalizeIsCandidate(poly);
    CandidateDistinct(poly, turns, reflected);
  }
}
