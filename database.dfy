/**
 * The pair database shared by every database kind: the catalogue of
 * stars, the list of star pairs sorted by angular distance, the k-vector
 * bin table over that list, and the k-vector line that maps a distance to
 * its bins. The angular distance between two catalogue stars is
 * spherical trigonometry; it is the database's `separation` function.
 */
module Databases {
  import opened Errors
  import opened StarPairs
  import opened KVectors
  import opened ListOps
  import opened ArrayLists
  import Angles

  /** A catalogue position: right ascension and declination, in radians. */
  datatype Equatorial = Equatorial(ra: real, dec: real)

  /** A candidate match: the pair found and how far it is from the search. */
  datatype SearchResult = SearchResult(result: StarPair<nat>, error: real)

  datatype Database = Database(
    pairs: seq<StarPair<nat>>,
    catalogue: seq<Equatorial>,
    kVector: seq<nat>,
    kLookup: KVector,
    separation: (Equatorial, Equatorial) -> real)

  /** `find_star`: the catalogue entry at `index`, or `OutOfBounds`. */
  function FindStar(db: Database, index: nat): (r: Result<Equatorial>)
    ensures r.Ok? <==> index < |db.catalogue|
    ensures r.Ok? ==> r.value == db.catalogue[index]
    ensures r.Err? ==> r.error == OutOfBounds
  {
    if index < |db.catalogue| then Ok(db.catalogue[index]) else Err(OutOfBounds)
  }

  /**
   * `angle_distance`: the separation of the two catalogue stars of `pair`,
   * or `OutOfBounds` when either index is past the catalogue.
   */
  function AngleDistance(db: Database, pair: StarPair<nat>): (r: Result<real>)
    ensures r.Ok? <==> FindStar(db, pair.first).Ok? && FindStar(db, pair.second).Ok?
    ensures r.Ok? ==> r.value == db.separation(db.catalogue[pair.first], db.catalogue[pair.second])
    ensures r.Err? ==> r.error == OutOfBounds
  {
    if pair.first < |db.catalogue| && pair.second < |db.catalogue| then
      Ok(db.separation(db.catalogue[pair.first], db.catalogue[pair.second]))
    else
      Err(OutOfBounds)
  }

  /**
   * Pair `i` is outside the tolerance: its distance is known and differs
   * from `find` by more than `tolerance`. A pair whose distance cannot be
   * found is never trimmed.
   */
  predicate Out(db: Database, find: real, tolerance: real, i: nat)
    requires i < |db.pairs|
  {
    var d := AngleDistance(db, db.pairs[i]);
    d.Ok? && tolerance < Angles.Abs(find - d.value)
  }

  function Min(a: nat, b: nat): nat { if a < b then a else b }

  /** Where `trim_range` starts: `start` clamped to the last pair, `end` to the pair count. */
  function Clamped(db: Database, range: Range): (c: Range)
    requires 0 < |db.pairs|
    ensures c.start < |db.pairs| && c.end <= |db.pairs|
    ensures c.start <= range.start && c.end <= range.end
    ensures range.start < |db.pairs| ==> c.start == range.start
    ensures range.end <= |db.pairs| ==> c.end == range.end
  {
    Range(Min(range.start, |db.pairs| - 1), Min(range.end, |db.pairs|))
  }

  /**
   * The lower loop's result: `start` moved up from `s0` past pairs outside
   * the tolerance, stopping at a pair inside it, at `end` or at the last pair.
   */
  ghost predicate StartTrimmed(db: Database, find: real, tolerance: real, s0: nat, end: nat, start: nat)
  {
    s0 <= start < |db.pairs| && (start == s0 || start <= end) &&
    (forall i: nat :: s0 <= i < start ==> Out(db, find, tolerance, i)) &&
    (start < end && start < |db.pairs| - 1 ==> !Out(db, find, tolerance, start))
  }

  /**
   * The upper loop's result: `end` moved down from `e0` past pairs outside
   * the tolerance, stopping at a pair inside it or at `start`.
   */
  ghost predicate EndTrimmed(db: Database, find: real, tolerance: real, e0: nat, start: nat, end: nat)
    requires e0 <= |db.pairs|
  {
    end <= e0 && (end == e0 || start <= end) &&
    (forall i: nat :: end <= i < e0 ==> Out(db, find, tolerance, i)) &&
    (start < end ==> !Out(db, find, tolerance, end - 1))
  }

  /**
   * `r` is `range` trimmed: from the clamped range, the start moved up past
   * every pair outside the tolerance (while it is below the clamped end and
   * the last pair), then the end moved down past every pair outside the
   * tolerance (while it is above the start). Only boundary pairs outside
   * the tolerance are dropped.
   */
  ghost predicate Trimmed(db: Database, find: real, tolerance: real, range: Range, r: Range)
    requires 0 < |db.pairs|
  {
    StartTrimmed(db, find, tolerance, Clamped(db, range).start, Clamped(db, range).end, r.start) &&
    EndTrimmed(db, find, tolerance, Clamped(db, range).end, r.start, r.end)
  }

  /** There is only one trimmed range: the description above fixes both ends. */
  lemma TrimmedUnique(db: Database, find: real, tolerance: real, range: Range, r1: Range, r2: Range)
    requires 0 < |db.pairs|
    requires Trimmed(db, find, tolerance, range, r1) && Trimmed(db, find, tolerance, range, r2)
    ensures r1 == r2
  {
  }

  /** A trimmed range lies inside the clamped one and, when that is not empty, is not inverted. */
  lemma TrimmedInside(db: Database, find: real, tolerance: real, range: Range, r: Range)
    requires 0 < |db.pairs|
    requires Trimmed(db, find, tolerance, range, r)
    ensures Clamped(db, range).start <= r.start && r.end <= Clamped(db, range).end
    ensures Clamped(db, range).start < Clamped(db, range).end ==> r.start <= r.end
  {
  }

  /** The lower loop of `trim_range`. */
  method TrimStart(db: Database, find: real, tolerance: real, s0: nat, end: nat) returns (start: nat)
    requires s0 < |db.pairs|
    ensures StartTrimmed(db, find, tolerance, s0, end, start)
  {
    start := s0;
    while true
      invariant s0 <= start < |db.pairs| && (start == s0 || start <= end)
      invariant forall i: nat :: s0 <= i < start ==> Out(db, find, tolerance, i)
      decreases |db.pairs| - start
    {
      var valid := start < end && start < |db.pairs| - 1;
      var distance := AngleDistance(db, db.pairs[start]);
      if !(distance.Ok? && tolerance < Angles.Abs(find - distance.value) && valid) {
        break;
      }
      start := start + 1;
    }
  }

  /**
   * `trim_range` as written. The upper loop looks up pair `end - 1` before
   * it tests `start < end`, so it steps below index 0 (a panic) when the
   * clamped end is 0, and when the start stayed at 0 and every pair below
   * the end is outside the tolerance, which with a single pair means that
   * one pair is outside it. On an empty pair list the clamp itself
   * underflows `pairs_size - 1`. `None` stands for these panics.
   */
  method TrimRangeAsWritten(db: Database, find: real, tolerance: real, range: Range) returns (r: Option<Range>)
    ensures r.None? <==> TrimPanics(db, find, tolerance, range)
    ensures r.Some? ==> 0 < |db.pairs| && Trimmed(db, find, tolerance, range, r.value)
  {
    if |db.pairs| == 0 {
      // `get_pairs_size() - 1` underflows: the source panics here.
      return None;
    }
    var c := Clamped(db, range);
    var start := TrimStart(db, find, tolerance, c.start, c.end);
    var end: nat := c.end;
    while true
      invariant end <= c.end && (end == c.end || start <= end)
      invariant forall i: nat :: end <= i < c.end ==> Out(db, find, tolerance, i)
      decreases end
    {
      if end == 0 {
        // `end - 1` underflows: the source panics here.
        PanicCases(db, find, tolerance, range, start);
        return None;
      }
      var distance := AngleDistance(db, db.pairs[end - 1]);
      if !(distance.Ok? && tolerance < Angles.Abs(find - distance.value) && start < end) {
        break;
      }
      end := end - 1;
    }
    assert EndTrimmed(db, find, tolerance, c.end, start, end);
    NoPanicCases(db, find, tolerance, range, start, end);
    return Some(Range(start, end));
  }

  /** When `trim_range` as written panics: see `TrimRangeAsWritten`. */
  predicate TrimPanics(db: Database, find: real, tolerance: real, range: Range)
  {
    |db.pairs| == 0 ||
    var c := Clamped(db, range);
    c.end == 0 || (c.start == 0 && |db.pairs| == 1 && Out(db, find, tolerance, 0))
  }

  lemma PanicCases(db: Database, find: real, tolerance: real, range: Range, start: nat)
    requires 0 < |db.pairs|
    requires StartTrimmed(db, find, tolerance, Clamped(db, range).start, Clamped(db, range).end, start)
    requires Clamped(db, range).end == 0 || start == 0
    requires forall i: nat :: i < Clamped(db, range).end ==> Out(db, find, tolerance, i)
    ensures TrimPanics(db, find, tolerance, range)
  {
    var c := Clamped(db, range);
    if c.end != 0 {
      assert start <= 0 && Out(db, find, tolerance, 0);
    }
  }

  lemma NoPanicCases(db: Database, find: real, tolerance: real, range: Range, start: nat, end: nat)
    requires 0 < |db.pairs|
    requires StartTrimmed(db, find, tolerance, Clamped(db, range).start, Clamped(db, range).end, start)
    requires EndTrimmed(db, find, tolerance, Clamped(db, range).end, start, end)
    requires 0 < end
    ensures !TrimPanics(db, find, tolerance, range)
  {
  }

  /** On any database, the empty range `0..0` makes `trim_range` as written panic. */
  lemma TrimEmptyRangePanics(db: Database, find: real, tolerance: real)
    ensures TrimPanics(db, find, tolerance, Range(0, 0))
  {
  }

  /** So does a database of one pair whose distance is outside the tolerance. */
  lemma TrimSinglePairPanics()
    ensures var db := Database([StarPair(0, 1)], [Equatorial(0.0, 0.0), Equatorial(1.0, 0.0)],
        [0, 1], KVector(1.0, 0.0, 0.0, 1.0, 1), (a: Equatorial, b: Equatorial) => b.ra - a.ra);
      TrimPanics(db, 3.0, 0.5, Range(0, 1))
  {
    var db := Database([StarPair(0, 1)], [Equatorial(0.0, 0.0), Equatorial(1.0, 0.0)],
        [0, 1], KVector(1.0, 0.0, 0.0, 1.0, 1), (a: Equatorial, b: Equatorial) => b.ra - a.ra);
    assert AngleDistance(db, db.pairs[0]) == Ok(1.0);
  }

  /**
   * `trim_range` with the upper loop testing `start < end` before it looks
   * up pair `end - 1`: it never panics and returns the trimmed range.
   */
  method TrimRange(db: Database, find: real, tolerance: real, range: Range) returns (r: Range)
    requires 0 < |db.pairs|
    ensures Trimmed(db, find, tolerance, range, r)
  {
    var c := Clamped(db, range);
    var start := TrimStart(db, find, tolerance, c.start, c.end);
    var end: nat := c.end;
    while start < end && Out(db, find, tolerance, end - 1)
      invariant end <= c.end && (end == c.end || start <= end)
      invariant forall i: nat :: end <= i < c.end ==> Out(db, find, tolerance, i)
      decreases end
    {
      end := end - 1;
    }
    return Range(start, end);
  }

  /** The pair-list range the k-vector gives for the bins of `find`, before trimming. */
  ghost predicate LookupFits(db: Database, find: real, tolerance: real, eps: real)
  {
    db.kLookup.gradient != 0.0 &&
    var bins := GetBins(db.kLookup, find, tolerance, eps);
    bins.Ok? ==>
      bins.value.start < |db.kVector| &&
      (|db.kVector| <= bins.value.end ==> 0 < bins.value.end <= |db.kVector|)
  }

  /** The bin range's last index, moved down one when it is past the bin table. */
  function EndBin(db: Database, bins: Range): (e: nat)
    requires |db.kVector| <= bins.end ==> 0 < bins.end
    ensures e <= bins.end
    ensures bins.end < |db.kVector| ==> e == bins.end
  {
    if |db.kVector| <= bins.end then bins.end - 1 else bins.end
  }

  /**
   * What `find_close_ref_range` gives: `0..0` when the k-vector lookup
   * fails; otherwise the pair-list range from the start of the first bin
   * to the start of the last, trimmed by `trim_range` as written, so
   * `None` (a panic) exactly when that trim panics.
   */
  ghost predicate CloseRange(db: Database, find: real, tolerance: real, eps: real, r: Option<Range>)
    requires LookupFits(db, find, tolerance, eps)
  {
    var bins := GetBins(db.kLookup, find, tolerance, eps);
    (r.Some? ==> r.value.end <= |db.pairs| && (0 < |db.pairs| ==> r.value.start < |db.pairs|)) &&
    (bins.Err? ==> r == Some(Range(0, 0))) &&
    (bins.Ok? ==>
      var looked := Range(db.kVector[bins.value.start], db.kVector[EndBin(db, bins.value)]);
      (r.None? <==> TrimPanics(db, find, tolerance, looked)) &&
      (r.Some? ==> 0 < |db.pairs| && Trimmed(db, find, tolerance, looked, r.value)))
  }

  /**
   * `find_close_ref_range`: `0..0` when the k-vector lookup fails;
   * otherwise the pair-list range from the start of the first bin to the
   * start of the last, trimmed to the pairs within the tolerance by
   * `trim_range` as written, whose panic (`None`) it passes on. The
   * source indexes the bin table with the lookup's range without a check.
   */
  method FindCloseRefRange(db: Database, find: real, tolerance: real, eps: real) returns (r: Option<Range>)
    requires LookupFits(db, find, tolerance, eps)
    ensures CloseRange(db, find, tolerance, eps, r)
  {
    var bins := GetBins(db.kLookup, find, tolerance, eps);
    if bins.Ok? {
      var endRange := bins.value.end;
      if |db.kVector| <= endRange {
        endRange := endRange - 1;
      }
      var range := Range(db.kVector[bins.value.start], db.kVector[endRange]);
      r := TrimRangeAsWritten(db, find, tolerance, range);
      return;
    }
    return Some(Range(0, 0));
  }

  /** When the k-vector lookup lands on the first pairs, `find_close_ref_range` panics. */
  lemma FindCloseRefRangePanics(db: Database, find: real, tolerance: real, eps: real, r: Option<Range>)
    requires LookupFits(db, find, tolerance, eps)
    requires GetBins(db.kLookup, find, tolerance, eps).Ok?
    requires db.kVector[GetBins(db.kLookup, find, tolerance, eps).value.start] == 0
    requires db.kVector[EndBin(db, GetBins(db.kLookup, find, tolerance, eps).value)] == 0
    requires CloseRange(db, find, tolerance, eps, r)
    ensures r.None?
  {
    TrimEmptyRangePanics(db, find, tolerance);
  }

  /**
   * With no pairs at all, `find_close_ref_range` gives `0..0` when the
   * k-vector lookup fails and panics in `trim_range` otherwise.
   */
  lemma FindCloseRefRangeNoPairs(db: Database, find: real, tolerance: real, eps: real, r: Option<Range>)
    requires |db.pairs| == 0 && LookupFits(db, find, tolerance, eps)
    requires CloseRange(db, find, tolerance, eps, r)
    ensures GetBins(db.kLookup, find, tolerance, eps).Err? ==> r == Some(Range(0, 0))
    ensures GetBins(db.kLookup, find, tolerance, eps).Ok? ==> r.None?
  {
  }

  /** The search results for the pairs of `range`, in order, each with error 1. */
  function Results(db: Database, range: Range): (rs: seq<SearchResult>)
    requires range.end <= |db.pairs|
    ensures |rs| == if range.start <= range.end then range.end - range.start else 0
    ensures forall i :: 0 <= i < |rs| ==> rs[i] == SearchResult(db.pairs[range.start + i], 1.0)
    decreases range.end - range.start
  {
    if range.end <= range.start then []
    else Results(db, Range(range.start, range.end - 1)) + [SearchResult(db.pairs[range.end - 1], 1.0)]
  }

  /** Adding one more result to the pushed prefix, under the capacity cut. */
  lemma ResultsStep(db: Database, before: seq<SearchResult>, start: nat, i: nat, n: nat)
    requires start <= i < |db.pairs|
    ensures Truncate(Truncate(before + Results(db, Range(start, i)), n) + [SearchResult(db.pairs[i], 1.0)], n) ==
      Truncate(before + Results(db, Range(start, i + 1)), n)
  {
    var prev := Results(db, Range(start, i));
    var x := SearchResult(db.pairs[i], 1.0);
    assert Results(db, Range(start, i + 1)) == prev + [x];
    TruncateAppend(before + prev, [x], n);
    assert before + prev + [x] == before + (prev + [x]);
  }

  /**
   * `find_close_ref`: pushes every pair of `find_close_ref_range` onto
   * `found`, in order, while `found` has room. When that range panics
   * (`None`), nothing has been pushed.
   */
  method FindCloseRef(db: Database, find: real, tolerance: real, eps: real, found: ArrayList<SearchResult>)
    returns (ghost range: Option<Range>)
    requires LookupFits(db, find, tolerance, eps)
    requires found.Valid()
    modifies found, found.data
    ensures CloseRange(db, find, tolerance, eps, range)
    ensures found.Valid() && found.data == old(found.data)
    ensures range.None? ==> found.Contents() == old(found.Contents())
    ensures range.Some? ==> found.Contents() == Truncate(old(found.Contents()) + Results(db, range.value), found.Capacity())
  {
    var rg := FindCloseRefRange(db, find, tolerance, eps);
    range := rg;
    if rg.None? {
      return;
    }
    PushResults(db, rg.value, found);
  }

  /** The loop of `find_close_ref`: the pairs of `rg`, in order, onto `found` while it has room. */
  method PushResults(db: Database, rg: Range, found: ArrayList<SearchResult>)
    requires rg.start <= |db.pairs| && rg.end <= |db.pairs|
    requires found.Valid()
    modifies found, found.data
    ensures found.Valid() && found.data == old(found.data)
    ensures found.Contents() == Truncate(old(found.Contents()) + Results(db, rg), found.Capacity())
  {
    ghost var before := found.Contents();
    ghost var cap := found.Capacity();
    if rg.end <= rg.start {
      assert before + Results(db, rg) == before;
      return;
    }
    var i := rg.start;
    while i < rg.end
      invariant found.Valid() && found.data == old(found.data) && found.Capacity() == cap
      invariant rg.start <= i <= rg.end
      invariant found.Contents() == Truncate(before + Results(db, Range(rg.start, i)), cap)
      decreases rg.end - i
    {
      var pair := db.pairs[i];
      var error := 1.0;
      ResultsStep(db, before, rg.start, i, cap);
      PushIfRoom(found, SearchResult(pair, error));
      i := i + 1;
    }
  }
}
