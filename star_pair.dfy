/**
 * `StarPair`: two stars (catalogue or image indices) joined by an angular
 * distance. Pairs are compared as unordered: `(a, b)` and `(b, a)` are the
 * same pair.
 */
module StarPairs {
  import opened Errors

  datatype StarPair<T> = StarPair(first: T, second: T)

  /** `has`: `star` is one of the two ends of `p`. */
  predicate Has<T(==)>(p: StarPair<T>, star: T)
    ensures Has(p, star) <==> star in multiset{p.first, p.second}
  {
    p.first == star || p.second == star
  }

  /**
   * `find_same`: the star both pairs share. When they share both ends, the
   * first end of `a` is preferred.
   */
  function FindSame<T(==)>(a: StarPair<T>, b: StarPair<T>): (r: Option<T>)
    ensures r.Some? ==> Has(a, r.value) && Has(b, r.value)
    ensures r.None? <==> !Has(b, a.first) && !Has(b, a.second)
    ensures Has(b, a.first) ==> r == Some(a.first)
  {
    if a.first == b.first || a.first == b.second then Some(a.first)
    else if a.second == b.first || a.second == b.second then Some(a.second)
    else None
  }

  /** `has_same`: the pairs share at least one star. */
  predicate HasSame<T(==)>(a: StarPair<T>, b: StarPair<T>)
    ensures HasSame(a, b) <==> Has(b, a.first) || Has(b, a.second)
  {
    FindSame(a, b).Some?
  }

  /** Sharing a star does not depend on which pair is asked first. */
  lemma HasSameSymmetric<T>(a: StarPair<T>, b: StarPair<T>)
    ensures HasSame(a, b) <==> HasSame(b, a)
    ensures HasSame(a, b) <==> exists s :: Has(a, s) && Has(b, s)
  {
    if HasSame(a, b) {
      var s := FindSame(a, b).value;
      assert Has(a, s) && Has(b, s);
    }
  }

  /** `are_same`: the pairs hold the same two stars, in either order. */
  predicate AreSame<T(==)>(a: StarPair<T>, b: StarPair<T>)
    ensures AreSame(a, b) ==> Has(b, a.first) && Has(b, a.second) && Has(a, b.first) && Has(a, b.second)
  {
    (a.first == b.first && a.second == b.second) ||
    (a.first == b.second && a.second == b.first)
  }

  /** Unordered equality: the same stars with the same multiplicity, whichever pair comes first. */
  lemma AreSameIsUnordered<T>(a: StarPair<T>, b: StarPair<T>)
    ensures AreSame(a, b) <==> multiset{a.first, a.second} == multiset{b.first, b.second}
    ensures AreSame(a, b) <==> AreSame(b, a)
  {
    var ma := multiset{a.first, a.second};
    var mb := multiset{b.first, b.second};
    if ma == mb {
      assert a.first in mb;
      assert a.second in mb;
      if a.first == b.first {
        assert mb - multiset{a.first} == multiset{b.second};
        assert ma - multiset{a.first} == multiset{a.second};
      } else {
        assert a.first == b.second;
        assert mb - multiset{a.first} == multiset{b.first};
        assert ma - multiset{a.first} == multiset{a.second};
      }
    }
  }

  /**
   * `find_not`: the end of `p` that is not `not`, the first end preferred;
   * `None` when both ends are `not`.
   */
  function FindNot<T(==)>(p: StarPair<T>, not: T): (r: Option<T>)
    ensures r.None? <==> p.first == not && p.second == not
    ensures r.Some? ==> r.value != not && Has(p, r.value)
    ensures p.first != not ==> r == Some(p.first)
  {
    if p.first != not then Some(p.first)
    else if p.second != not then Some(p.second)
    else None
  }

  /**
   * `index_of`: the first index of `list` holding the same pair as `find`,
   * in either order, or `None` when no entry does.
   */
  method IndexOf(find: StarPair<nat>, list: seq<StarPair<nat>>) returns (r: Option<nat>)
    ensures r.Some? ==> r.value < |list| && AreSame(list[r.value], find)
    ensures r.Some? ==> forall j :: 0 <= j < r.value ==> !AreSame(list[j], find)
    ensures r.None? ==> forall j :: 0 <= j < |list| ==> !AreSame(list[j], find)
  {
    var i := 0;
    while i < |list|
      invariant i <= |list|
      invariant forall j :: 0 <= j < i ==> !AreSame(list[j], find)
    {
      var pair := list[i];
      if (pair.first == find.first && pair.second == find.second) || (pair.first == find.second && pair.second == find.first) {
        return Some(i);
      }
      i := i + 1;
    }
    return None;
  }
}
