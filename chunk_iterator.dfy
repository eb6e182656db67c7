/**
 * Chunk iterators: the order in which the database search visits regions
 * of the sky, and the test of whether a star pair belongs to the current
 * region. `ChunkIteratorNone` has one region covering everything,
 * `ChunkAreaSearch` one fixed area, and `ChunkIteratorDeclination` a band
 * of declination per step, visited in the order a randomiser gives.
 */
module ChunkIterators {
  import opened Errors
  import opened StarPairs
  import opened Databases
  import opened Angles

  /** `usize::div_ceil(n, 2)`. */
  function HalfUp(n: nat): (h: nat)
    ensures h + h == n || h + h == n + 1
  {
    (n + 1) / 2
  }

  /**
   * `randomise_parity`: the first half of the steps (rounded up) visit
   * the even bands in order, the rest visit the odd bands in order.
   */
  function RandomiseParity(index: nat, numElements: nat): (chunk: nat)
    ensures index < numElements ==> chunk < numElements
    ensures chunk % 2 == 0 <==> index < HalfUp(numElements)
  {
    if index < HalfUp(numElements) then index * 2
    else (index - HalfUp(numElements)) * 2 + 1
  }

  /** Which step of `randomise_parity` visits `chunk`. */
  function ParityStep(chunk: nat, numElements: nat): nat
  {
    if chunk % 2 == 0 then chunk / 2 else HalfUp(numElements) + chunk / 2
  }

  /** Every step in `[0, n)` is mapped back to itself by `ParityStep`. */
  lemma ParityStepInverts(index: nat, numElements: nat)
    requires index < numElements
    ensures ParityStep(RandomiseParity(index, numElements), numElements) == index
  {
  }

  /** Every band in `[0, n)` is visited, by the step `ParityStep` names. */
  lemma ParityVisitsEvery(chunk: nat, numElements: nat)
    requires chunk < numElements
    ensures ParityStep(chunk, numElements) < numElements
    ensures RandomiseParity(ParityStep(chunk, numElements), numElements) == chunk
  {
  }

  /** No band is visited twice: `randomise_parity` is a bijection on `[0, n)`. */
  lemma ParityInjective(i: nat, j: nat, numElements: nat)
    requires i < numElements && j < numElements
    requires RandomiseParity(i, numElements) == RandomiseParity(j, numElements)
    ensures i == j
  {
    ParityStepInverts(i, numElements);
    ParityStepInverts(j, numElements);
  }

  /** The bands visited by steps `0 .. n-1` under a randomiser. */
  function Visits(randomiser: (nat, nat) -> nat, steps: nat, numElements: nat): seq<nat>
  {
    seq(steps, i requires 0 <= i < steps => randomiser(i, numElements))
  }

  /** A full pass of `randomise_parity` visits each of the `n` bands exactly once. */
  lemma ParityPassVisitsEachOnce(numElements: nat)
    ensures var v := Visits(RandomiseParity, numElements, numElements);
      (forall k :: 0 <= k < numElements ==> k in v) &&
      (forall i, j :: 0 <= i < j < numElements ==> v[i] != v[j])
  {
    var v := Visits(RandomiseParity, numElements, numElements);
    forall k | 0 <= k < numElements
      ensures k in v
    {
      ParityVisitsEvery(k, numElements);
      assert v[ParityStep(k, numElements)] == k;
    }
    forall i, j | 0 <= i < j < numElements
      ensures v[i] != v[j]
    {
      if v[i] == v[j] {
        ParityInjective(i, j, numElements);
      }
    }
  }

  /** `randomise_none`: step `i` visits band `i`. */
  function RandomiseNone(index: nat, numElements: nat): (chunk: nat)
    ensures chunk == index
  {
    index
  }

  /** A closed interval of angles, `start ..= end` as the region tests read it. */
  datatype Bounds = Bounds(start: real, end: real)

  /** The star's declination is inside `dec`. */
  predicate InDec(dec: Bounds, p: Equatorial)
  {
    dec.start <= p.dec <= dec.end
  }

  /**
   * The star's right ascension is inside `ra`, or inside its part that
   * spills over 360 degrees or under 0, folded back.
   */
  predicate RaCovers(ra: Bounds, p: Equatorial)
    ensures ra.start <= p.ra <= ra.end ==> RaCovers(ra, p)
    ensures 0.0 <= ra.start && ra.end <= DegreesToRadians(360.0) ==>
      (RaCovers(ra, p) <==> ra.start <= p.ra <= ra.end)
  {
    (ra.start <= p.ra <= ra.end) ||
    (if DegreesToRadians(360.0) < ra.end then p.ra <= ra.end - DegreesToRadians(360.0)
     else if ra.start < 0.0 then ra.start + DegreesToRadians(360.0) <= p.ra
     else false)
  }

  /** Some turn of `ra` (one less, none or one more) lies in `[start, end]`. */
  predicate SomeTurnInside(ra: Bounds, x: real)
  {
    var turn := DegreesToRadians(360.0);
    ra.start <= x <= ra.end || ra.start <= x + turn <= ra.end || ra.start <= x - turn <= ra.end
  }

  /**
   * For a right ascension in `[0, 360)` degrees and a range that starts
   * no later than 360 degrees and ends no earlier than 0, the folding in
   * `RaCovers` is exactly "some turn of the angle is inside the range".
   * A range ending exactly at 360 degrees is left out: it does not fold,
   * so a star at 0 is outside it although 360 degrees is inside.
   */
  lemma RaCoversIsWrapped(ra: Bounds, p: Equatorial)
    requires 0.0 <= p.ra < DegreesToRadians(360.0)
    requires ra.start <= DegreesToRadians(360.0) && 0.0 <= ra.end && ra.end != DegreesToRadians(360.0)
    ensures RaCovers(ra, p) <==> SomeTurnInside(ra, p.ra)
  {
  }

  /** `same_region` of the area and declination iterators, for the pair at `pairIndex`. */
  predicate PairIn(db: Database, pairIndex: nat, dec: Bounds, ra: Option<Bounds>)
    requires pairIndex < |db.pairs|
  {
    var pair := db.pairs[pairIndex];
    var p1 := FindStar(db, pair.first);
    var p2 := FindStar(db, pair.second);
    p1.Ok? && p2.Ok? &&
    (InDec(dec, p1.value) || InDec(dec, p2.value)) &&
    (ra.None? || RaCovers(ra.value, p1.value) || RaCovers(ra.value, p2.value))
  }

  /** A pair with a star outside the catalogue is in no region. */
  lemma UnknownStarInNoRegion(db: Database, pairIndex: nat, dec: Bounds, ra: Option<Bounds>)
    requires pairIndex < |db.pairs|
    requires |db.catalogue| <= db.pairs[pairIndex].first || |db.catalogue| <= db.pairs[pairIndex].second
    ensures !PairIn(db, pairIndex, dec, ra)
  {
  }

  /** `ChunkIteratorNone`: one region, the whole sky. */
  class ChunkIteratorNone {
    const database: Database
    /** Whether `next` has been called since `begin`. */
    var started: bool

    constructor (database: Database)
      ensures this.database == database && !started
    {
      this.database := database;
      started := false;
    }

    method Begin()
      modifies this
      ensures !started
    {
      started := false;
    }

    /** `true` on the first call after `begin`, `false` on every later one. */
    method Next() returns (more: bool)
      modifies this
      ensures more == !old(started) && started
    {
      more := !started;
      started := true;
    }

    /** Every pair is in the one region. */
    function SameRegion(pairIndex: nat): (r: bool)
      ensures r
    {
      true
    }
  }

  /** `ChunkAreaSearch`: one region, a fixed area of right ascension and declination. */
  class ChunkAreaSearch {
    const database: Database
    var ra: Bounds
    var dec: Bounds
    /** Whether `next` has been called since `begin`. */
    var started: bool

    /** `from_range`: the given bounds. */
    constructor FromRange(database: Database, boundsRa: Bounds, boundsDec: Bounds)
      ensures this.database == database && ra == boundsRa && dec == boundsDec && !started
    {
      this.database := database;
      ra := boundsRa;
      dec := boundsDec;
      started := false;
    }

    /** `from_point`: half the field of view either side of the centre, on both axes. */
    constructor FromPoint(database: Database, center: Equatorial, fov: real)
      ensures this.database == database && !started
      ensures ra.end - ra.start == fov && ra.start + ra.end == 2.0 * center.ra
      ensures dec.end - dec.start == fov && dec.start + dec.end == 2.0 * center.dec
    {
      this.database := database;
      ra := Bounds(center.ra - fov / 2.0, center.ra + fov / 2.0);
      dec := Bounds(center.dec - fov / 2.0, center.dec + fov / 2.0);
      started := false;
    }

    method Begin()
      modifies this`started
      ensures !started
    {
      started := false;
    }

    /** `true` on the first call after `begin`, `false` on every later one. */
    method Next() returns (more: bool)
      modifies this`started
      ensures more == !old(started) && started
    {
      more := !started;
      started := true;
    }

    /**
     * A pair is in the area when both its stars are in the catalogue, one
     * of them is inside the declination bounds and one of them inside the
     * right ascension bounds, folded across 0 and 360 degrees.
     */
    function SameRegion(pairIndex: nat): (r: bool)
      reads this
      requires pairIndex < |database.pairs|
      ensures r ==> FindStar(database, database.pairs[pairIndex].first).Ok? &&
                    FindStar(database, database.pairs[pairIndex].second).Ok?
      ensures r <==> PairIn(database, pairIndex, dec, Some(ra))
    {
      var pair := database.pairs[pairIndex];
      var p1 := FindStar(database, pair.first);
      var p2 := FindStar(database, pair.second);
      if p1.Err? || p2.Err? then false
      else
        var validDec := InDec(dec, p1.value) || InDec(dec, p2.value);
        var validRa := RaCovers(ra, p1.value) || RaCovers(ra, p2.value);
        validDec && validRa
    }
  }

  /**
   * A pair whose first star sits at the centre of an area made by
   * `from_point` with a non-negative field of view is in that area.
   */
  lemma CentreInArea(db: Database, pairIndex: nat, center: Equatorial, fov: real)
    requires pairIndex < |db.pairs| && 0.0 <= fov
    requires db.pairs[pairIndex].first < |db.catalogue| && db.pairs[pairIndex].second < |db.catalogue|
    requires db.catalogue[db.pairs[pairIndex].first] == center
    ensures PairIn(db, pairIndex,
      Bounds(center.dec - fov / 2.0, center.dec + fov / 2.0),
      Some(Bounds(center.ra - fov / 2.0, center.ra + fov / 2.0)))
  {
    var ra := Bounds(center.ra - fov / 2.0, center.ra + fov / 2.0);
    assert RaCovers(ra, center);
  }

  /** The band of declination centred on band `chunk`, `chunkStep * multiplier` wide. */
  function Band(chunk: nat, chunkStep: real, multiplier: real): (b: Bounds)
    ensures b.start + b.end == 2.0 * (chunk as real * chunkStep - DegreesToRadians(90.0))
    ensures b.end - b.start == chunkStep * multiplier
  {
    var halfStep := chunkStep * multiplier / 2.0;
    var centre := chunk as real * chunkStep - DegreesToRadians(90.0);
    Bounds(centre - halfStep, centre + halfStep)
  }

  /**
   * `ChunkIteratorDeclination`: `num` bands of declination, one per step,
   * the band of step `index` chosen by `randomiser(index, num)`.
   */
  class ChunkIteratorDeclination {
    const database: Database
    const randomiser: (nat, nat) -> nat
    /** How many steps `next` has taken since `begin`. */
    var index: nat
    const num: nat
    /** The current band. */
    var dec: Bounds
    const chunkStep: real
    const chunkSizeMultiplier: real

    /**
     * The state `new` builds once the number of bands and the band step
     * are known; the overlap is added to 1 to make the size multiplier.
     */
    constructor (database: Database, num: nat, chunkStep: real, sizeAddition: real, randomiser: (nat, nat) -> nat)
      ensures this.database == database && this.randomiser == randomiser
      ensures this.num == num && this.chunkStep == chunkStep && chunkSizeMultiplier == 1.0 + sizeAddition
      ensures index == 0 && dec == Bounds(0.0, 0.0)
    {
      this.database := database;
      this.randomiser := randomiser;
      index := 0;
      this.num := num;
      dec := Bounds(0.0, 0.0);
      this.chunkStep := chunkStep;
      chunkSizeMultiplier := 1.0 + sizeAddition;
    }

    method Begin()
      modifies this`index, this`dec
      ensures index == 0 && dec == Bounds(0.0, 0.0)
    {
      index := 0;
      dec := Bounds(0.0, 0.0);
    }

    /**
     * `false`, changing nothing, once all `num` steps are taken; otherwise
     * moves to the band the randomiser picks for this step and counts the
     * step.
     */
    method Next() returns (more: bool)
      modifies this`index, this`dec
      ensures more <==> old(index) < num
      ensures more ==> index == old(index) + 1 &&
                       dec == Band(randomiser(old(index), num), chunkStep, chunkSizeMultiplier)
      ensures !more ==> index == old(index) && dec == old(dec)
    {
      if num <= index {
        return false;
      }
      var actualIndex := randomiser(index, num);
      dec := Band(actualIndex, chunkStep, chunkSizeMultiplier);
      index := index + 1;
      return true;
    }

    /** A pair is in the band when both its stars are catalogued and one of them lies in the band. */
    function SameRegion(pairIndex: nat): (r: bool)
      reads this
      requires pairIndex < |database.pairs|
      ensures r <==> PairIn(database, pairIndex, dec, None)
    {
      var pair := database.pairs[pairIndex];
      var p1 := FindStar(database, pair.first);
      var p2 := FindStar(database, pair.second);
      if p1.Err? || p2.Err? then false
      else InDec(dec, p1.value) || InDec(dec, p2.value)
    }
  }
}
