/**
 * `StarTriangle`: three stars joined by three star pairs. It is built from
 * three pairs that loop (each shares one star with each of the others) and
 * looked up, star by star, in the database catalogue or in a list.
 */
module StarTriangles {
  import opened Errors
  import opened StarPairs
  import opened Databases

  datatype StarTriangle<T> = StarTriangle(0: T, 1: T, 2: T)

  /**
   * `construct_triangle`: the stars `a` shares with `b`, `a` with `c` and
   * `b` with `c`, when all three exist and differ; otherwise `None`.
   */
  function ConstructTriangle(a: StarPair<nat>, b: StarPair<nat>, c: StarPair<nat>): (r: Option<StarTriangle<nat>>)
    ensures r.Some? <==>
      HasSame(a, b) && HasSame(a, c) && HasSame(b, c) &&
      FindSame(a, b) != FindSame(a, c) && FindSame(a, b) != FindSame(b, c) && FindSame(a, c) != FindSame(b, c)
    ensures r.Some? ==> r.value.0 != r.value.1 && r.value.0 != r.value.2 && r.value.1 != r.value.2
    ensures r.Some? ==> Has(a, r.value.0) && Has(a, r.value.1)
    ensures r.Some? ==> Has(b, r.value.0) && Has(b, r.value.2)
    ensures r.Some? ==> Has(c, r.value.1) && Has(c, r.value.2)
  {
    var sameAB := FindSame(a, b);
    var sameAC := FindSame(a, c);
    var sameBC := FindSame(b, c);
    if sameAB.Some? && sameAC.Some? && sameBC.Some? then
      var ab := sameAB.value;
      var ac := sameAC.value;
      var bc := sameBC.value;
      if ab != ac && ab != bc && ac != bc then Some(StarTriangle(ab, ac, bc))
      else None
    else None
  }

  /**
   * Three pairs over three distinct stars `i`, `j`, `k` (in either order
   * within each pair) as `(i, j)`, `(i, k)`, `(j, k)` always form the
   * triangle `(i, j, k)`.
   */
  lemma ConstructTriangleOfLoop(a: StarPair<nat>, b: StarPair<nat>, c: StarPair<nat>, i: nat, j: nat, k: nat)
    requires i != j && i != k && j != k
    requires AreSame(a, StarPair(i, j)) && AreSame(b, StarPair(i, k)) && AreSame(c, StarPair(j, k))
    ensures ConstructTriangle(a, b, c) == Some(StarTriangle(i, j, k))
  {
    assert FindSame(a, b) == Some(i);
    assert FindSame(a, c) == Some(j);
    assert FindSame(b, c) == Some(k);
  }

  /** Two pairs that are the same pair share both stars, so no triangle comes from them. */
  lemma ConstructTriangleNeedsThreePairs(a: StarPair<nat>, c: StarPair<nat>)
    requires a.first != a.second
    ensures ConstructTriangle(a, a, c).None?
  {
  }

  /**
   * `search_database`: the catalogue positions of the three stars, or
   * `NoMatch` when any of them is not in the catalogue.
   */
  function SearchDatabase(t: StarTriangle<nat>, db: Database): (r: Result<StarTriangle<Equatorial>>)
    ensures r.Ok? <==> FindStar(db, t.0).Ok? && FindStar(db, t.1).Ok? && FindStar(db, t.2).Ok?
    ensures r.Ok? ==> r.value == StarTriangle(db.catalogue[t.0], db.catalogue[t.1], db.catalogue[t.2])
    ensures r.Err? ==> r.error == NoMatch
  {
    var a := FindStar(db, t.0);
    var b := FindStar(db, t.1);
    var c := FindStar(db, t.2);
    if a.Err? || b.Err? || c.Err? then Err(NoMatch)
    else Ok(StarTriangle(a.value, b.value, c.value))
  }

  /**
   * `search_list`: the list elements at the three indices, or `NoMatch`
   * when any index is past the end of the list.
   */
  function SearchList(t: StarTriangle<nat>, list: seq<Equatorial>): (r: Result<StarTriangle<Equatorial>>)
    ensures r.Ok? <==> t.0 < |list| && t.1 < |list| && t.2 < |list|
    ensures r.Ok? ==> r.value == StarTriangle(list[t.0], list[t.1], list[t.2])
    ensures r.Err? ==> r.error == NoMatch
  {
    if t.0 < |list| && t.1 < |list| && t.2 < |list| then Ok(StarTriangle(list[t.0], list[t.1], list[t.2]))
    else Err(NoMatch)
  }

  /** Looking a triangle up in the database is looking it up in the catalogue as a list. */
  lemma SearchDatabaseIsCatalogueList(t: StarTriangle<nat>, db: Database)
    ensures SearchDatabase(t, db) == SearchList(t, db.catalogue)
  {
  }

  /** `has`: `star` is one of the triangle's three stars. */
  predicate Has3<T(==)>(t: StarTriangle<T>, star: T)
    ensures Has3(t, star) <==> star in multiset{t.0, t.1, t.2}
  {
    t.0 == star || t.1 == star || t.2 == star
  }

  /** Every star of a constructed triangle is in two of the three pairs, and nothing else is a vertex. */
  lemma ConstructedVertices(a: StarPair<nat>, b: StarPair<nat>, c: StarPair<nat>, s: nat)
    requires ConstructTriangle(a, b, c).Some?
    ensures Has3(ConstructTriangle(a, b, c).value, s) ==>
      (Has(a, s) && Has(b, s)) || (Has(a, s) && Has(c, s)) || (Has(b, s) && Has(c, s))
    ensures Has3(ConstructTriangle(a, b, c).value, s) <==> Has(a, s) || Has(b, s) || Has(c, s)
  {
    var t := ConstructTriangle(a, b, c).value;
    if Has(a, s) {
      if a.first == s {
        assert a.first == t.0 || a.first == t.1 by {
          assert Has(a, t.0) && Has(a, t.1) && t.0 != t.1;
        }
      }
    }
  }
}
