/** Point sequences ("polys") as the generator handles them: Python's
    `sorted` over the point order, pointwise maps, translation, and the
    lexicographic comparison of whole tuples that `min` uses. */
module PolySort {
  import opened GenPoint

  type Poly = seq<Point>

  ghost predicate Sorted(s: Poly) {
    forall i, j :: 0 <= i < j < |s| ==> Le(s[i], s[j])
  }

  /** No point occurs twice. */
  ghost predicate Distinct(s: Poly) {
    forall i, j :: 0 <= i < j < |s| ==> s[i] != s[j]
  }

  /** Inserts `p` in front of the first element it does not exceed. */
  function Insert(p: Point, s: Poly): (r: Poly)
    ensures |r| == |s| + 1
  {
    if |s| == 0 then [p]
    else if Le(p, s[0]) then [p] + s
    else [s[0]] + Insert(p, s[1..])
  }

  /** Insertion adds exactly `p`, and keeps a sorted sequence sorted. */
  lemma InsertSpec(p: Point, s: Poly)
    ensures multiset(Insert(p, s)) == multiset(s) + multiset{p}
    ensures Sorted(s) ==> Sorted(Insert(p, s))
  {
    InsertMultiset(p, s);
    if Sorted(s) {
      InsertSorted(p, s);
    }
  }

  lemma {:induction false} InsertMultiset(p: Point, s: Poly)
    ensures multiset(Insert(p, s)) == multiset(s) + multiset{p}
  {
    if |s| > 0 && !Le(p, s[0]) {
      InsertMultiset(p, s[1..]);
      assert s == [s[0]] + s[1..];
    }
  }

  lemma {:induction false} InsertSorted(p: Point, s: Poly)
    requires Sorted(s)
    ensures Sorted(Insert(p, s))
  {
    if |s| > 0 && !Le(p, s[0]) {
      var rest := Insert(p, s[1..]);
      InsertSorted(p, s[1..]);
      InsertMultiset(p, s[1..]);
      forall j | 0 <= j < |rest| ensures Le(s[0], rest[j]) {
        assert rest[j] in multiset(rest);
        if rest[j] != p {
          assert rest[j] in multiset(s[1..]);
          var k :| 0 <= k < |s[1..]| && s[1..][k] == rest[j];
          assert s[k + 1] == rest[j];
        } else {
          LtIsStrictTotalOrder(p, s[0], p);
        }
      }
      assert Sorted([s[0]] + rest);
    }
  }

  /** Python's `sorted(poly)`, written as an insertion sort: on a total order
      every sort yields the same sequence (see `SortedUnique`). */
  function Sort(s: Poly): (r: Poly)
    ensures |r| == |s|
  {
    if |s| == 0 then [] else Insert(s[0], Sort(s[1..]))
  }

  /** `Sort` returns a sorted permutation of its input. */
  lemma {:induction false} SortSpec(s: Poly)
    ensures Sorted(Sort(s))
    ensures multiset(Sort(s)) == multiset(s)
  {
    if |s| > 0 {
      SortSpec(s[1..]);
      InsertSpec(s[0], Sort(s[1..]));
      assert s == [s[0]] + s[1..];
    }
  }

  /** A sorted sequence is determined by its multiset of points. */
  lemma {:induction false} SortedUnique(a: Poly, b: Poly)
    requires Sorted(a) && Sorted(b)
    requires multiset(a) == multiset(b)
    ensures a == b
  {
    if |a| == 0 {
      assert |multiset(b)| == 0;
    } else {
      SortedHeads(a, b);
      TailMultiset(a, b);
      SortedUnique(a[1..], b[1..]);
      assert a == [a[0]] + a[1..];
      assert b == [b[0]] + b[1..];
    }
  }

  /** Two sorted sequences with the same points start with the same point. */
  lemma SortedHeads(a: Poly, b: Poly)
    requires Sorted(a) && Sorted(b) && |a| > 0
    requires multiset(a) == multiset(b)
    ensures |b| > 0 && a[0] == b[0]
  {
    assert a[0] in multiset(b);
    assert b[0] in multiset(a);
    var i :| 0 <= i < |b| && b[i] == a[0];
    var j :| 0 <= j < |a| && a[j] == b[0];
    assert Le(b[0], a[0]) by { assert i == 0 || Le(b[0], b[i]); }
    assert Le(a[0], b[0]) by { assert j == 0 || Le(a[0], a[j]); }
    LtIsStrictTotalOrder(a[0], b[0], a[0]);
  }

  /** Removing the same first point from two sequences with the same points
      leaves the same points. */
  lemma TailMultiset(a: Poly, b: Poly)
    requires |a| > 0 && |b| > 0 && a[0] == b[0]
    requires multiset(a) == multiset(b)
    ensures multiset(a[1..]) == multiset(b[1..])
  {
    assert a == [a[0]] + a[1..];
    assert b == [b[0]] + b[1..];
    assert multiset(a[1..]) == multiset(a) - multiset{a[0]};
    assert multiset(b[1..]) == multiset(b) - multiset{b[0]};
  }

  /** Sorting depends only on the multiset of its input. */
  lemma SortPermutation(a: Poly, b: Poly)
    requires multiset(a) == multiset(b)
    ensures Sort(a) == Sort(b)
  {
    SortSpec(a);
    SortSpec(b);
    SortedUnique(Sort(a), Sort(b));
  }

  /** Sorting a sorted sequence changes nothing. */
  lemma SortSorted(s: Poly)
    requires Sorted(s)
    ensures Sort(s) == s
  {
    SortSpec(s);
    SortedUnique(Sort(s), s);
  }

  function Map(f: Point -> Point, s: Poly): (r: Poly)
    ensures |r| == |s|
  {
    seq(|s|, i requires 0 <= i < |s| => f(s[i]))
  }

  /** Taking the first point out of `s` and the same point, at `k`, out of a
      permutation `t` of `s` leaves permutations of each other. */
  lemma RemoveAt(s: Poly, t: Poly, k: int)
    requires |s| > 0 && 0 <= k < |t| && t[k] == s[0]
    requires multiset(s) == multiset(t)
    ensures multiset(s[1..]) == multiset(t[..k] + t[k + 1..])
  {
    assert t == t[..k] + [t[k]] + t[k + 1..];
    assert s == [s[0]] + s[1..];
    assert multiset(t[..k] + t[k + 1..]) == multiset(t) - multiset{t[k]};
    assert multiset(s[1..]) == multiset(s) - multiset{s[0]};
  }

  /** Translation by `d`: every point plus `d`. */
  function Translate(s: Poly, d: Point): (r: Poly)
    ensures |r| == |s|
  {
    seq(|s|, i requires 0 <= i < |s| => Add(s[i], d))
  }

  /** A pointwise map sends permutations to permutations. */
  lemma {:induction false} MapMultiset(f: Point -> Point, s: Poly, t: Poly)
    requires multiset(s) == multiset(t)
    ensures multiset(Map(f, s)) == multiset(Map(f, t))
    decreases |s|
  {
    if |s| == 0 {
      assert |multiset(t)| == 0;
      assert t == [];
    } else {
      var x := s[0];
      assert x in multiset(t);
      var k :| 0 <= k < |t| && t[k] == x;
      var t' := t[..k] + t[k + 1..];
      RemoveAt(s, t, k);
      MapMultiset(f, s[1..], t');
      assert t == t[..k] + [x] + t[k + 1..];
      assert Map(f, t) == Map(f, t[..k]) + [f(x)] + Map(f, t[k + 1..]);
      assert Map(f, t') == Map(f, t[..k]) + Map(f, t[k + 1..]);
      assert Map(f, s) == [f(x)] + Map(f, s[1..]);
    }
  }

  lemma TranslateIsMap(s: Poly, d: Point)
    ensures Translate(s, d) == Map(p => Add(p, d), s)
  {
  }

  /** Translation permutes along with its input and preserves the order. */
  lemma TranslatePreserves(s: Poly, t: Poly, d: Point)
    ensures multiset(s) == multiset(t) ==> multiset(Translate(s, d)) == multiset(Translate(t, d))
    ensures Sorted(s) ==> Sorted(Translate(s, d))
    ensures Distinct(s) ==> Distinct(Translate(s, d))
  {
    TranslateIsMap(s, d);
    TranslateIsMap(t, d);
    if multiset(s) == multiset(t) {
      MapMultiset(p => Add(p, d), s, t);
    }
    forall i, j | 0 <= i < j < |s|
      ensures Le(s[i], s[j]) ==> Le(Translate(s, d)[i], Translate(s, d)[j])
    {
      LtIsStrictTotalOrder(s[i], s[j], d);
    }
  }

  /** Sorting commutes with translation. */
  lemma SortTranslate(s: Poly, d: Point)
    ensures Sort(Translate(s, d)) == Translate(Sort(s), d)
  {
    SortSpec(s);
    SortSpec(Translate(s, d));
    TranslatePreserves(Sort(s), s, d);
    SortedUnique(Sort(Translate(s, d)), Translate(Sort(s), d));
  }

  /** A distinct sequence has every multiplicity at most one, and back. */
  lemma {:induction false} DistinctMultiset(s: Poly)
    ensures Distinct(s) <==> forall p :: multiset(s)[p] <= 1
  {
    if |s| > 0 {
      DistinctMultiset(s[1..]);
      assert s == [s[0]] + s[1..];
      assert multiset(s) == multiset{s[0]} + multiset(s[1..]);
      if Distinct(s) {
        assert s[0] !in s[1..];
        assert Distinct(s[1..]);
      }
      if forall p :: multiset(s)[p] <= 1 {
        assert multiset(s)[s[0]] <= 1;
        assert multiset(s[1..])[s[0]] == 0;
        forall p ensures multiset(s[1..])[p] <= 1 {
          assert multiset(s)[p] <= 1;
        }
        forall i, j | 0 <= i < j < |s| ensures s[i] != s[j] {
          if i == 0 {
            assert s[j] in s[1..];
          } else {
            assert s[i] == s[1..][i - 1] && s[j] == s[1..][j - 1];
          }
        }
      }
    }
  }

  /** Distinctness depends only on the multiset. */
  lemma DistinctPermutation(s: Poly, t: Poly)
    requires multiset(s) == multiset(t)
    requires Distinct(s)
    ensures Distinct(t)
  {
    DistinctMultiset(s);
    DistinctMultiset(t);
  }

  /** Python's tuple comparison `a < b`: the first differing position
      decides, and a proper prefix is smaller. */
  predicate PolyLt(a: Poly, b: Poly) {
    if |a| == 0 then |b| > 0
    else if |b| == 0 then false
    else if a[0] == b[0] then PolyLt(a[1..], b[1..])
    else Lt(a[0], b[0])
  }

  /** `PolyLt` is a strict total order. */
  lemma {:induction false} PolyLtStrictTotal(a: Poly, b: Poly)
    ensures !PolyLt(a, a)
    ensures PolyLt(a, b) ==> !PolyLt(b, a)
    ensures a != b ==> PolyLt(a, b) || PolyLt(b, a)
  {
    if |a| > 0 {
      PolyLtStrictTotal(a[1..], a[1..]);
    }
    if |a| > 0 && |b| > 0 {
      PolyLtStrictTotal(a[1..], b[1..]);
      LtIsStrictTotalOrder(a[0], b[0], a[0]);
      if a[0] == b[0] && a != b {
        assert a == [a[0]] + a[1..] && b == [b[0]] + b[1..];
      }
    }
  }

  lemma {:induction false} PolyLtTransitive(a: Poly, b: Poly, c: Poly)
    requires PolyLt(a, b) && PolyLt(b, c)
    ensures PolyLt(a, c)
  {
    if |a| > 0 && |b| > 0 && |c| > 0 {
      LtIsStrictTotalOrder(a[0], b[0], c[0]);
      if a[0] == b[0] && b[0] == c[0] {
        PolyLtTransitive(a[1..], b[1..], c[1..]);
      }
    }
  }
}
