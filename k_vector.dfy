/**
 * The k-vector: a straight line `gradient * bin + intercept` that maps an
 * angular distance to a bin of the distance-sorted pair list, and the
 * table of where each bin starts in that list.
 *
 * `Decimal` is modelled as `real`. The library's `DECIMAL_PRECISION`
 * constant is the parameter `eps`.
 */
module KVectors {
  import opened Errors
  import opened StarPairs

  datatype KVector = KVector(gradient: real, intercept: real, minValue: real, maxValue: real, numBins: nat)

  /** One entry of the pair database: a star pair and the angle between its stars. */
  datatype StarDatabaseElement = StarDatabaseElement(pair: StarPair<nat>, dist: real)

  datatype Range = Range(start: nat, end: nat)

  function Floor(x: real): int { x.Floor }

  function Ceil(x: real): (c: int)
    ensures x <= c as real < x + 1.0
  {
    -((-x).Floor)
  }

  /**
   * A Rust `as usize` cast of a whole-numbered `Decimal`: negative values
   * saturate to 0 and values past the top to `usize::MAX`.
   */
  function ToUsize(x: int): (n: nat)
    ensures n <= USIZE_MAX
    ensures 0 <= x <= USIZE_MAX ==> n == x
  {
    if x < 0 then 0 else if x > USIZE_MAX then USIZE_MAX else x
  }

  /**
   * `KVector::new`: the line through the bins, widened by `eps` at both
   * ends so that `min_value` and `max_value` fall strictly inside.
   */
  function New(numBins: nat, minValue: real, maxValue: real, eps: real): (k: KVector)
    requires 0 < numBins
    ensures k.numBins == numBins && k.minValue == minValue && k.maxValue == maxValue
    ensures k.intercept + eps == minValue
    ensures k.gradient * numBins as real + k.intercept == maxValue + eps
  {
    KVector((maxValue - minValue + 2.0 * eps) / numBins as real, minValue - eps, minValue, maxValue, numBins)
  }

  /** Where the line puts bin `i`. */
  function Limit(k: KVector, i: nat): real
  {
    k.gradient * i as real + k.intercept
  }

  /** With a positive `eps` the first bin starts below the smallest value and the last one ends above the largest. */
  lemma NewCoversRange(numBins: nat, minValue: real, maxValue: real, eps: real)
    requires 0 < numBins && 0.0 < eps
    ensures Limit(New(numBins, minValue, maxValue, eps), 0) < minValue
    ensures maxValue < Limit(New(numBins, minValue, maxValue, eps), numBins)
  {
  }

  /**
   * `get_bins`: the bins to search for `value`, widened by half a bin,
   * `eps` and `angleTolerance` on each side; the lower end rounded down,
   * the upper end rounded up and capped at the number of bins, both then
   * cast to `usize`. A value outside `[min_value, max_value]` is
   * `InvalidValue`. The source divides by the gradient, which must not be 0.
   */
  function GetBins(k: KVector, value: real, angleTolerance: real, eps: real): (r: Result<Range>)
    requires k.gradient != 0.0
    ensures r.Err? <==> value < k.minValue || k.maxValue < value
    ensures r.Err? ==> r.error == InvalidValue
    ensures r.Ok? && k.numBins <= USIZE_MAX ==> r.value.end <= k.numBins
  {
    if value < k.minValue then Err(InvalidValue)
    else if k.maxValue < value then Err(InvalidValue)
    else
      var tolerance := k.gradient / 2.0 + eps + angleTolerance;
      var high := Ceil((value - k.intercept + tolerance) / k.gradient);
      var low := Floor((value - k.intercept - tolerance) / k.gradient);
      var capped := if high > k.numBins then k.numBins else high;
      Ok(Range(ToUsize(low), ToUsize(capped)))
  }

  /**
   * The bin a value falls in (the last bin whose limit is at or below it)
   * always lies inside the range `get_bins` returns, when the line rises
   * and starts below the value.
   */
  lemma GetBinsCovers(k: KVector, value: real, angleTolerance: real, eps: real, bin: nat)
    requires 0.0 < k.gradient && 0.0 <= eps && 0.0 <= angleTolerance
    requires k.minValue <= value <= k.maxValue
    requires Limit(k, bin) <= value < Limit(k, bin + 1)
    requires k.numBins <= USIZE_MAX
    ensures GetBins(k, value, angleTolerance, eps).Ok?
    ensures GetBins(k, value, angleTolerance, eps).value.start <= bin
    ensures bin < k.numBins ==> bin < GetBins(k, value, angleTolerance, eps).value.end
  {
    var m := k.gradient;
    var t := m / 2.0 + eps + angleTolerance;
    var lowReal := (value - k.intercept - t) / m;
    var highReal := (value - k.intercept + t) / m;
    var pos := (value - k.intercept) / m;
    BinPosition(m, k.intercept, value, bin);
    DivideMonotone(value - k.intercept - t, value - k.intercept, m);
    DivideStrict(value - k.intercept, value - k.intercept + t, m);
    assert lowReal < bin as real + 1.0;
    assert Floor(lowReal) <= bin;
    assert bin as real < highReal;
  }

  /** A value between the limits of `bin` and `bin + 1` sits between `bin` and `bin + 1` on the line's scale. */
  lemma BinPosition(m: real, q: real, value: real, bin: nat)
    requires 0.0 < m
    requires m * bin as real + q <= value < m * (bin + 1) as real + q
    ensures bin as real <= (value - q) / m < bin as real + 1.0
  {
    var p := (value - q) / m;
    assert p * m == value - q;
    if p < bin as real {
      MulMonotone(p, bin as real, m);
    }
    assert m * (bin + 1) as real == (bin as real + 1.0) * m;
    if bin as real + 1.0 <= p {
      MulMonotone(bin as real + 1.0, p, m);
    }
  }

  lemma MulMonotone(a: real, b: real, m: real)
    requires 0.0 < m && a <= b
    ensures a * m <= b * m
    ensures a < b ==> a * m < b * m
  {
    assert b * m - a * m == (b - a) * m;
  }

  lemma DivideMonotone(a: real, b: real, m: real)
    requires 0.0 < m && a <= b
    ensures a / m <= b / m
  {
    assert b / m - a / m == (b - a) / m;
  }

  lemma DivideStrict(a: real, b: real, m: real)
    requires 0.0 < m && a < b
    ensures a / m < b / m
  {
    assert b / m - a / m == (b - a) / m;
  }

  /**
   * `ideal_bins`: enough bins of width `tolerance` to span the distances
   * from the first to the last element, rounded up and cast to `usize`.
   * The source indexes the first and last element, so the list is not
   * empty, and divides by `tolerance`.
   */
  function IdealBins(sortedDatabase: seq<StarDatabaseElement>, tolerance: real): (n: nat)
    requires 0 < |sortedDatabase| && tolerance != 0.0
    ensures var range := sortedDatabase[|sortedDatabase| - 1].dist - sortedDatabase[0].dist;
      0.0 < tolerance && n < USIZE_MAX ==> range <= n as real * tolerance
  {
    var range := sortedDatabase[|sortedDatabase| - 1].dist - sortedDatabase[0].dist;
    var bins := Ceil(range / tolerance);
    MulBins(range, tolerance, bins);
    ToUsize(bins)
  }

  lemma MulBins(range: real, tolerance: real, bins: int)
    requires tolerance != 0.0 && range / tolerance <= bins as real
    ensures 0.0 < tolerance && 0 <= bins ==> range <= bins as real * tolerance
  {
    if 0.0 < tolerance && 0 <= bins {
      assert (range / tolerance) * tolerance == range;
      assert (range / tolerance) * tolerance <= bins as real * tolerance;
    }
  }

  /** The bins are just enough: one fewer would not span the range. */
  lemma IdealBinsTight(sortedDatabase: seq<StarDatabaseElement>, tolerance: real)
    requires 0 < |sortedDatabase| && 0.0 < tolerance
    requires sortedDatabase[0].dist < sortedDatabase[|sortedDatabase| - 1].dist
    requires IdealBins(sortedDatabase, tolerance) < USIZE_MAX
    ensures 0 < IdealBins(sortedDatabase, tolerance)
    ensures (IdealBins(sortedDatabase, tolerance) - 1) as real * tolerance <
      sortedDatabase[|sortedDatabase| - 1].dist - sortedDatabase[0].dist
  {
    var range := sortedDatabase[|sortedDatabase| - 1].dist - sortedDatabase[0].dist;
    var q := range / tolerance;
    var bins := Ceil(q);
    PositiveQuotient(range, tolerance);
    assert q * tolerance == range;
    assert (bins - 1) as real < q;
    assert (bins - 1) as real * tolerance < q * tolerance;
  }

  lemma PositiveQuotient(a: real, b: real)
    requires 0.0 < a && 0.0 < b
    ensures 0.0 < a / b
  {
  }

  /**
   * Entry `i` of the bin table: the first index at or after `from` whose
   * distance reaches the limit of bin `i`.
   */
  ghost predicate FirstReaching(db: seq<StarDatabaseElement>, from: nat, limit: real, j: nat)
  {
    from <= j < |db| && limit <= db[j].dist &&
    forall i :: from <= i < j ==> db[i].dist < limit
  }

  /** The inner scan of `generate_bins`: step on from `from` until a distance reaches `limit`. */
  method ScanTo(db: seq<StarDatabaseElement>, from: nat, limit: real) returns (j: nat)
    requires from < |db| && limit <= db[|db| - 1].dist
    ensures FirstReaching(db, from, limit, j)
  {
    j := from;
    while db[j].dist < limit
      invariant from <= j < |db|
      invariant forall i :: from <= i < j ==> db[i].dist < limit
      decreases |db| - j
    {
      j := j + 1;
    }
  }

  /** Every entry of `table` is where its bin starts, scanning on from the previous entry. */
  ghost predicate BinTable(db: seq<StarDatabaseElement>, k: KVector, table: seq<nat>)
  {
    forall i {:trigger BinStart(table, i)} :: 0 <= i < |table| ==>
      FirstReaching(db, BinStart(table, i), Limit(k, i), table[i])
  }

  /** Appending the start of the next bin keeps the table a bin table. */
  lemma TableExtends(db: seq<StarDatabaseElement>, k: KVector, table: seq<nat>, next: nat)
    requires BinTable(db, k, table)
    requires FirstReaching(db, BinStart(table, |table|), Limit(k, |table|), next)
    ensures BinTable(db, k, table + [next])
  {
    var t := table + [next];
    forall i | 0 <= i < |t|
      ensures FirstReaching(db, BinStart(t, i), Limit(k, i), t[i])
    {
      if i < |table| {
        assert t[i] == table[i];
        assert BinStart(t, i) == BinStart(table, i);
      } else {
        assert BinStart(t, i) == BinStart(table, i);
      }
    }
  }

  /** A bin table never goes back, and every entry indexes the database. */
  lemma {:induction false} BinTableSorted(db: seq<StarDatabaseElement>, k: KVector, table: seq<nat>)
    requires BinTable(db, k, table)
    ensures forall i :: 0 <= i < |table| ==> table[i] < |db|
    ensures forall i, j :: 0 <= i <= j < |table| ==> table[i] <= table[j]
  {
    if |table| > 0 {
      var front := table[..|table| - 1];
      assert BinTable(db, k, front) by {
        forall i | 0 <= i < |front|
          ensures FirstReaching(db, BinStart(front, i), Limit(k, i), front[i])
        {
          assert front[i] == table[i];
          assert BinStart(front, i) == BinStart(table, i);
        }
      }
      BinTableSorted(db, k, front);
      var last := |table| - 1;
      assert FirstReaching(db, BinStart(table, last), Limit(k, last), table[last]);
      assert forall i :: 0 <= i < last ==> table[i] == front[i];
    }
  }

  /** Where the scan for bin `i` begins: the start of the previous bin, or 0. */
  function BinStart(table: seq<nat>, i: nat): nat
    requires i <= |table|
  {
    if i == 0 then 0 else table[i - 1]
  }

  /**
   * `generate_bins`: for each bin but the last, the index where it starts
   * (scanning on from where the previous bin started), then the size of
   * the database. Fewer than three elements is `InvalidSize`. The source
   * computes `num_bins - 1` and scans without a bound check, so it needs at
   * least one bin and every bin limit but the last to be reached by some
   * element.
   */
  method GenerateBins(k: KVector, sortedDatabase: seq<StarDatabaseElement>) returns (r: Result<seq<nat>>)
    requires 0 < k.numBins
    requires 3 <= |sortedDatabase| ==>
      forall i :: 0 <= i < k.numBins - 1 ==> Limit(k, i) <= sortedDatabase[|sortedDatabase| - 1].dist
    ensures r.Err? <==> |sortedDatabase| < 3
    ensures r.Err? ==> r.error == InvalidSize
    ensures r.Ok? ==> |r.value| == k.numBins && r.value[k.numBins - 1] == |sortedDatabase|
    ensures r.Ok? ==> BinTable(sortedDatabase, k, r.value[..k.numBins - 1])
    ensures r.Ok? ==> forall i, j :: 0 <= i <= j < |r.value| ==> r.value[i] <= r.value[j]
  {
    if |sortedDatabase| < 3 {
      return Err(InvalidSize);
    }
    var vec: seq<nat> := [];
    var ii := 0;
    while ii < k.numBins - 1
      invariant ii <= k.numBins - 1 && |vec| == ii
      invariant BinTable(sortedDatabase, k, vec)
    {
      var maxValue := k.gradient * ii as real + k.intercept;
      var jj := 0;
      if 0 < ii {
        jj := vec[ii - 1];
        BinTableSorted(sortedDatabase, k, vec);
      }
      assert maxValue == Limit(k, ii);
      jj := ScanTo(sortedDatabase, jj, maxValue);
      TableExtends(sortedDatabase, k, vec, jj);
      vec := vec + [jj];
      ii := ii + 1;
    }
    BinTableSorted(sortedDatabase, k, vec);
    var table := vec + [|sortedDatabase|];
    assert table[..k.numBins - 1] == vec;
    return Ok(table);
  }
}
