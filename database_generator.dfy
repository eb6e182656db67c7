/**
 * `DatabaseGenerator`'s catalogue filters: the stars a database is built
 * from are the catalogue stars inside a magnitude band, without double
 * stars, and thinned so that no region of the sky holds far more stars
 * than it needs. The angular distance between two positions is the
 * parameter `dist` (it is spherical trigonometry).
 */
module DatabaseGenerators {
  import opened Databases
  import opened ListOps

  datatype Star = Star(mag: real, pos: Equatorial, spec: string, name: string)

  /** `r` is `s` with some elements left out, in order: `idx` says where each element of `r` came from. */
  ghost predicate SubsequenceBy<T>(r: seq<T>, s: seq<T>, idx: seq<nat>)
  {
    |idx| == |r| &&
    (forall k :: 0 <= k < |idx| ==> idx[k] < |s| && r[k] == s[idx[k]]) &&
    (forall k, l :: 0 <= k < l < |idx| ==> idx[k] < idx[l])
  }

  ghost predicate IsSubsequence<T>(r: seq<T>, s: seq<T>)
  {
    exists idx :: SubsequenceBy(r, s, idx)
  }

  /** A subsequence of `s` stays one when `s` grows at the back. */
  lemma SubsequenceSkip<T>(r: seq<T>, s: seq<T>, idx: seq<nat>, x: T)
    requires SubsequenceBy(r, s, idx)
    ensures SubsequenceBy(r, s + [x], idx)
  {
    forall k | 0 <= k < |idx|
      ensures idx[k] < |s + [x]| && r[k] == (s + [x])[idx[k]]
    {
    }
  }

  /** Taking the new last element along extends the subsequence. */
  lemma SubsequenceTake<T>(r: seq<T>, s: seq<T>, idx: seq<nat>, x: T)
    requires SubsequenceBy(r, s, idx)
    ensures SubsequenceBy(r + [x], s + [x], idx + [|s|])
  {
    SubsequenceSkip(r, s, idx, x);
    var r', idx' := r + [x], idx + [|s|];
    forall k | 0 <= k < |idx'|
      ensures idx'[k] < |s + [x]| && r'[k] == (s + [x])[idx'[k]]
    {
      if k < |idx| {
        assert idx'[k] == idx[k] && r'[k] == r[k];
      }
    }
  }

  /** Strictly inside the magnitude band, as `limit_magnitude` tests it. */
  predicate InBand(x: Star, minMagnitude: real, maxMagnitude: real)
  {
    x.mag < maxMagnitude && minMagnitude < x.mag
  }

  /** The stars of `stars` inside the band, in their input order. */
  function MagnitudeFilter(stars: seq<Star>, minMagnitude: real, maxMagnitude: real): (r: seq<Star>)
    ensures |r| <= |stars|
    ensures forall x :: x in r ==> InBand(x, minMagnitude, maxMagnitude)
  {
    if stars == [] then []
    else
      var last := stars[|stars| - 1];
      MagnitudeFilter(stars[..|stars| - 1], minMagnitude, maxMagnitude) +
        (if InBand(last, minMagnitude, maxMagnitude) then [last] else [])
  }

  /** A star of the input is kept exactly when it is inside the band. */
  lemma {:induction false} MagnitudeFilterKeeps(stars: seq<Star>, minMagnitude: real, maxMagnitude: real, i: nat)
    requires i < |stars|
    ensures stars[i] in MagnitudeFilter(stars, minMagnitude, maxMagnitude) <==> InBand(stars[i], minMagnitude, maxMagnitude)
  {
    if i < |stars| - 1 {
      MagnitudeFilterKeeps(stars[..|stars| - 1], minMagnitude, maxMagnitude, i);
    }
  }

  /** The filtered stars are a subsequence of the input. */
  lemma {:induction false} MagnitudeFilterSubsequence(stars: seq<Star>, minMagnitude: real, maxMagnitude: real)
    returns (idx: seq<nat>)
    ensures SubsequenceBy(MagnitudeFilter(stars, minMagnitude, maxMagnitude), stars, idx)
  {
    if stars == [] {
      idx := [];
    } else {
      var front := stars[..|stars| - 1];
      idx := MagnitudeFilterSubsequence(front, minMagnitude, maxMagnitude);
      if InBand(stars[|stars| - 1], minMagnitude, maxMagnitude) {
        idx := idx + [|stars| - 1];
      }
    }
  }

  /** `limit_magnitude`: keep the stars strictly between the two magnitudes. */
  method LimitMagnitude(stars: seq<Star>, minMagnitude: real, maxMagnitude: real) returns (s: seq<Star>)
    ensures s == MagnitudeFilter(stars, minMagnitude, maxMagnitude)
  {
    s := [];
    for i := 0 to |stars|
      invariant s == MagnitudeFilter(stars[..i], minMagnitude, maxMagnitude)
    {
      assert stars[..i + 1][..i] == stars[..i];
      if stars[i].mag < maxMagnitude && minMagnitude < stars[i].mag {
        s := s + [stars[i]];
      }
    }
    assert stars[..|stars|] == stars;
  }

  /** Two stars closer than `tolerance`, measured from `x`. */
  predicate Close(x: Star, y: Star, tolerance: real, dist: (Equatorial, Equatorial) -> real)
  {
    dist(x.pos, y.pos) < tolerance
  }

  /** No star before position `upto` is close to any star after it. */
  ghost predicate SpreadBefore(added: seq<Star>, upto: nat, tolerance: real, dist: (Equatorial, Equatorial) -> real)
  {
    forall a, b :: 0 <= a < upto && a < b < |added| ==> !Close(added[a], added[b], tolerance, dist)
  }

  /** Removing a star after position `ii` keeps the subsequence and the spread before `ii`. */
  lemma DropOne(stars: seq<Star>, added: seq<Star>, kept: seq<nat>, ii: nat, jj: nat,
                tolerance: real, dist: (Equatorial, Equatorial) -> real)
    requires ii < jj < |added|
    requires SubsequenceBy(added, stars, kept)
    requires SpreadBefore(added, ii, tolerance, dist)
    ensures SubsequenceBy(Without(added, jj), stars, Without(kept, jj))
    ensures SpreadBefore(Without(added, jj), ii, tolerance, dist)
  {
    var r := Without(added, jj);
    var rk := Without(kept, jj);
    forall k, l | 0 <= k < l < |rk|
      ensures rk[k] < rk[l]
    {
      var k' := if k < jj then k else k + 1;
      var l' := if l < jj then l else l + 1;
      assert rk[k] == kept[k'] && rk[l] == kept[l'];
    }
    forall a, b | 0 <= a < ii && a < b < |r|
      ensures !Close(r[a], r[b], tolerance, dist)
    {
      var b' := if b < jj then b else b + 1;
      assert r[a] == added[a] && r[b] == added[b'];
    }
  }

  /**
   * The inner loop of `limit_double_stars`: remove every star after
   * position `ii` that is close to the star at `ii`.
   */
  method DropCloseTo(stars: seq<Star>, added: seq<Star>, ghost kept: seq<nat>, ii: nat,
                     tolerance: real, dist: (Equatorial, Equatorial) -> real)
    returns (r: seq<Star>, ghost rk: seq<nat>)
    requires SubsequenceBy(added, stars, kept)
    requires SpreadBefore(added, ii, tolerance, dist)
    ensures SubsequenceBy(r, stars, rk) && |r| <= |added|
    ensures SpreadBefore(r, ii + 1, tolerance, dist)
    ensures ii < |added| ==> ii < |r| && r[..ii + 1] == added[..ii + 1] && rk[..ii + 1] == kept[..ii + 1]
    ensures |added| <= ii ==> r == added && rk == kept
  {
    r, rk := added, kept;
    var jj := ii + 1;
    while jj < |r|
      invariant ii + 1 <= jj && (jj <= |r| || r == added)
      invariant SubsequenceBy(r, stars, rk)
      invariant SpreadBefore(r, ii, tolerance, dist)
      invariant ii < |added| ==> ii < |r| && r[..ii + 1] == added[..ii + 1] && rk[..ii + 1] == kept[..ii + 1]
      invariant |added| <= ii ==> r == added && rk == kept
      invariant |r| <= |added|
      invariant forall b :: ii < b < jj && b < |r| ==> !Close(r[ii], r[b], tolerance, dist)
      decreases |r| - jj
    {
      if dist(r[ii].pos, r[jj].pos) < tolerance {
        DropOne(stars, r, rk, ii, jj, tolerance, dist);
        r := r[..jj] + r[jj + 1..];
        rk := rk[..jj] + rk[jj + 1..];
        jj := jj - 1;
      }
      jj := jj + 1;
    }
  }

  /**
   * `limit_double_stars`: copy the stars, then for each position in turn
   * remove every later star closer to the star there than `tolerance`.
   * What is left is a subsequence of the input that keeps the first star
   * and holds no two close stars.
   */
  method LimitDoubleStars(stars: seq<Star>, tolerance: real, dist: (Equatorial, Equatorial) -> real)
    returns (added: seq<Star>)
    ensures IsSubsequence(added, stars)
    ensures |stars| > 0 ==> |added| > 0 && added[0] == stars[0]
    ensures forall a, b :: 0 <= a < b < |added| ==> !Close(added[a], added[b], tolerance, dist)
  {
    added := [];
    for i := 0 to |stars|
      invariant added == stars[..i]
    {
      added := added + [stars[i]];
    }
    assert added == stars;
    ghost var kept: seq<nat> := seq(|stars|, k => k);
    var n := |added|;
    for ii := 0 to n
      invariant SubsequenceBy(added, stars, kept)
      invariant |added| <= n
      invariant |stars| > 0 ==> |added| > 0 && added[0] == stars[0]
      invariant SpreadBefore(added, ii, tolerance, dist)
    {
      added, kept := DropCloseTo(stars, added, kept, ii, tolerance, dist);
    }
  }
  /** The positions of the kept stars inside the region around `x`, in increasing order. */
  function Region(added: seq<Star>, x: Star, regionSize: real, dist: (Equatorial, Equatorial) -> real): (r: seq<nat>)
    ensures |r| <= |added|
    ensures forall p: nat :: p in r <==> p < |added| && Close(x, added[p], regionSize, dist)
    ensures forall t :: 0 <= t < |r| ==> r[t] < |added|
    ensures forall s, t :: 0 <= s < t < |r| ==> r[s] < r[t]
  {
    if added == [] then []
    else
      var front := added[..|added| - 1];
      Region(front, x, regionSize, dist) +
        (if Close(x, added[|added| - 1], regionSize, dist) then [|added| - 1] else [])
  }

  /**
   * Whether kept stars `i` and `j` are in each other's region, measured
   * from whichever of the two was added later (as `limit_regions` measures it).
   */
  predicate Linked(added: seq<Star>, i: nat, j: nat, regionSize: real, dist: (Equatorial, Equatorial) -> real)
    requires i < |added| && j < |added|
  {
    if j < i then Close(added[i], added[j], regionSize, dist) else Close(added[j], added[i], regionSize, dist)
  }

  /** How many of the first `m` kept stars, other than `i`, are linked with star `i`. */
  function Neighbours(added: seq<Star>, i: nat, m: nat, regionSize: real, dist: (Equatorial, Equatorial) -> real): nat
    requires i < |added| && m <= |added|
  {
    if m == 0 then 0
    else
      Neighbours(added, i, m - 1, regionSize, dist) +
      (if m - 1 != i && Linked(added, i, m - 1, regionSize, dist) then 1 else 0)
  }

  /**
   * `limit_regions` adds a star when fewer than `starsInRegion` kept
   * stars are in its region, or when one of them has fewer than
   * `starsInRegion` stars in its own region, counting itself.
   */
  predicate Accepts(added: seq<Star>, x: Star, regionSize: real, starsInRegion: nat, dist: (Equatorial, Equatorial) -> real)
  {
    |Region(added, x, regionSize, dist)| < starsInRegion ||
    exists i :: 0 <= i < |added| && Close(x, added[i], regionSize, dist) &&
      1 + Neighbours(added, i, |added|, regionSize, dist) < starsInRegion
  }

  /** The stars `limit_regions` keeps: each star in turn, kept when the stars kept before it accept it. */
  function RegionsFilter(stars: seq<Star>, regionSize: real, starsInRegion: nat, dist: (Equatorial, Equatorial) -> real): (r: seq<Star>)
    ensures |r| <= |stars|
  {
    if stars == [] then []
    else
      var kept := RegionsFilter(stars[..|stars| - 1], regionSize, starsInRegion, dist);
      var last := stars[|stars| - 1];
      kept + (if Accepts(kept, last, regionSize, starsInRegion, dist) then [last] else [])
  }

  /** The stars kept from a prefix of the input are a prefix of the stars kept from all of it. */
  lemma {:induction false} RegionsFilterPrefix(stars: seq<Star>, t: nat, regionSize: real, starsInRegion: nat,
                                              dist: (Equatorial, Equatorial) -> real)
    requires t <= |stars|
    ensures var front := RegionsFilter(stars[..t], regionSize, starsInRegion, dist);
      front <= RegionsFilter(stars, regionSize, starsInRegion, dist)
  {
    if t < |stars| {
      var init := stars[..|stars| - 1];
      assert init[..t] == stars[..t];
      RegionsFilterPrefix(init, t, regionSize, starsInRegion, dist);
    } else {
      assert stars[..t] == stars;
    }
  }

  /** Until `starsInRegion` stars are kept, every star is kept: the first ones always are. */
  lemma {:induction false} RegionsFilterKeepsFirst(stars: seq<Star>, regionSize: real, starsInRegion: nat,
                                                  dist: (Equatorial, Equatorial) -> real)
    requires |stars| <= starsInRegion
    ensures RegionsFilter(stars, regionSize, starsInRegion, dist) == stars
  {
    if stars != [] {
      var init := stars[..|stars| - 1];
      RegionsFilterKeepsFirst(init, regionSize, starsInRegion, dist);
      assert init + [stars[|stars| - 1]] == stars;
    }
  }

  /** The first `min(|stars|, starsInRegion)` stars of the input head the result. */
  lemma RegionsFilterKeepsPrefix(stars: seq<Star>, regionSize: real, starsInRegion: nat,
                                 dist: (Equatorial, Equatorial) -> real)
    ensures var m := if |stars| < starsInRegion then |stars| else starsInRegion;
      stars[..m] <= RegionsFilter(stars, regionSize, starsInRegion, dist)
  {
    var m := if |stars| < starsInRegion then |stars| else starsInRegion;
    RegionsFilterKeepsFirst(stars[..m], regionSize, starsInRegion, dist);
    RegionsFilterPrefix(stars, m, regionSize, starsInRegion, dist);
  }

  /** The kept stars are a subsequence of the input. */
  lemma {:induction false} RegionsFilterSubsequence(stars: seq<Star>, regionSize: real, starsInRegion: nat,
                                                   dist: (Equatorial, Equatorial) -> real)
    returns (idx: seq<nat>)
    ensures SubsequenceBy(RegionsFilter(stars, regionSize, starsInRegion, dist), stars, idx)
  {
    if stars == [] {
      idx := [];
    } else {
      var init := stars[..|stars| - 1];
      var last := stars[|stars| - 1];
      idx := RegionsFilterSubsequence(init, regionSize, starsInRegion, dist);
      var kept := RegionsFilter(init, regionSize, starsInRegion, dist);
      assert stars == init + [last];
      if Accepts(kept, last, regionSize, starsInRegion, dist) {
        SubsequenceTake(kept, init, idx, last);
        idx := idx + [|init|];
      } else {
        SubsequenceSkip(kept, init, idx, last);
      }
    }
  }

  /** Appending a star leaves the neighbour counts over the old positions as they were. */
  lemma {:induction false} NeighboursAppendFront(added: seq<Star>, x: Star, i: nat, m: nat, regionSize: real,
                                                dist: (Equatorial, Equatorial) -> real)
    requires i < |added| && m <= |added|
    ensures Neighbours(added + [x], i, m, regionSize, dist) == Neighbours(added, i, m, regionSize, dist)
  {
    if m > 0 {
      NeighboursAppendFront(added, x, i, m - 1, regionSize, dist);
    }
  }

  /** An added star links with an old star exactly when the old star is in its region. */
  lemma NeighboursAppend(added: seq<Star>, x: Star, i: nat, regionSize: real, dist: (Equatorial, Equatorial) -> real)
    requires i < |added|
    ensures Neighbours(added + [x], i, |added| + 1, regionSize, dist) ==
      Neighbours(added, i, |added|, regionSize, dist) + (if Close(x, added[i], regionSize, dist) then 1 else 0)
  {
    NeighboursAppendFront(added, x, i, |added|, regionSize, dist);
  }

  /** The added star's neighbours are the stars of its region. */
  lemma {:induction false} NeighboursOfNew(added: seq<Star>, x: Star, m: nat, regionSize: real,
                                          dist: (Equatorial, Equatorial) -> real)
    requires m <= |added|
    ensures Neighbours(added + [x], |added|, m, regionSize, dist) == |Region(added[..m], x, regionSize, dist)|
  {
    if m > 0 {
      NeighboursOfNew(added, x, m - 1, regionSize, dist);
      assert added[..m][..m - 1] == added[..m - 1];
    }
  }

  /** Scanning one more kept star adds its position to the region exactly when it is close. */
  lemma RegionStep(added: seq<Star>, x: Star, i: nat, regionSize: real, dist: (Equatorial, Equatorial) -> real)
    requires i < |added|
    ensures Region(added[..i + 1], x, regionSize, dist) ==
      Region(added[..i], x, regionSize, dist) + (if Close(x, added[i], regionSize, dist) then [i] else [])
  {
    assert added[..i + 1][..i] == added[..i];
  }

  /**
   * The region scan of `limit_regions`: the positions of the kept stars
   * in the region of `toAdd`, and whether one of them has fewer than
   * `starsInRegion` stars counted.
   */
  method ScanRegion(starsAdded: seq<Star>, counts: seq<nat>, toAdd: Star, regionSize: real, starsInRegion: nat,
                    dist: (Equatorial, Equatorial) -> real)
    returns (region: seq<nat>, lonely: bool)
    requires |counts| == |starsAdded|
    ensures region == Region(starsAdded, toAdd, regionSize, dist)
    ensures lonely <==> exists j :: 0 <= j < |starsAdded| && Close(toAdd, starsAdded[j], regionSize, dist) &&
                                   counts[j] < starsInRegion
  {
    region := [];
    lonely := false;
    for i := 0 to |starsAdded|
      invariant region == Region(starsAdded[..i], toAdd, regionSize, dist)
      invariant lonely == LonelyBelow(starsAdded, counts, toAdd, regionSize, starsInRegion, dist, i)
    {
      RegionStep(starsAdded, toAdd, i, regionSize, dist);
      LonelyStep(starsAdded, counts, toAdd, regionSize, starsInRegion, dist, i);
      if dist(toAdd.pos, starsAdded[i].pos) < regionSize {
        region := region + [i];
        lonely := lonely || counts[i] < starsInRegion;
      }
    }
    assert starsAdded[..|starsAdded|] == starsAdded;
  }

  /** Some star among the first `i` kept is in the region of `toAdd` and has fewer than `starsInRegion` counted. */
  ghost predicate LonelyBelow(starsAdded: seq<Star>, counts: seq<nat>, toAdd: Star, regionSize: real, starsInRegion: nat,
                              dist: (Equatorial, Equatorial) -> real, i: nat)
    requires |counts| == |starsAdded|
  {
    exists j :: 0 <= j < i && j < |starsAdded| && Close(toAdd, starsAdded[j], regionSize, dist) && counts[j] < starsInRegion
  }

  lemma LonelyStep(starsAdded: seq<Star>, counts: seq<nat>, toAdd: Star, regionSize: real, starsInRegion: nat,
                   dist: (Equatorial, Equatorial) -> real, i: nat)
    requires |counts| == |starsAdded| && i < |starsAdded|
    ensures LonelyBelow(starsAdded, counts, toAdd, regionSize, starsInRegion, dist, i + 1) <==>
      LonelyBelow(starsAdded, counts, toAdd, regionSize, starsInRegion, dist, i) ||
      (Close(toAdd, starsAdded[i], regionSize, dist) && counts[i] < starsInRegion)
  {
    if LonelyBelow(starsAdded, counts, toAdd, regionSize, starsInRegion, dist, i + 1) {
      var j :| 0 <= j < i + 1 && j < |starsAdded| && Close(toAdd, starsAdded[j], regionSize, dist) && counts[j] < starsInRegion;
      if j < i {
        assert LonelyBelow(starsAdded, counts, toAdd, regionSize, starsInRegion, dist, i);
      }
    }
  }

  /** Each kept star in the region counts one more neighbour. */
  method CountNeighbour(counts: seq<nat>, region: seq<nat>) returns (r: seq<nat>)
    requires forall t :: 0 <= t < |region| ==> region[t] < |counts|
    requires forall s, t :: 0 <= s < t < |region| ==> region[s] < region[t]
    ensures |r| == |counts|
    ensures forall p :: 0 <= p < |r| ==> r[p] == counts[p] + (if p in region then 1 else 0)
  {
    r := counts;
    for i := 0 to |region|
      invariant |r| == |counts|
      invariant forall p :: 0 <= p < |r| ==> r[p] == counts[p] + (if p in region[..i] then 1 else 0)
    {
      assert region[..i + 1] == region[..i] + [region[i]];
      r := r[region[i] := r[region[i]] + 1];
    }
    assert region[..|region|] == region;
  }

  /** Every kept star's count is one more than the kept stars linked with it. */
  ghost predicate CountsMatch(starsAdded: seq<Star>, counts: seq<nat>, regionSize: real, dist: (Equatorial, Equatorial) -> real)
  {
    |counts| == |starsAdded| &&
    forall p :: 0 <= p < |counts| ==> counts[p] == 1 + Neighbours(starsAdded, p, |starsAdded|, regionSize, dist)
  }

  /** Adding a star with the counts bumped over its region keeps the counts right. */
  lemma CountsAfterAdd(starsAdded: seq<Star>, counts: seq<nat>, bumped: seq<nat>, toAdd: Star,
                       regionSize: real, dist: (Equatorial, Equatorial) -> real)
    requires CountsMatch(starsAdded, counts, regionSize, dist)
    requires |bumped| == |counts|
    requires forall p :: 0 <= p < |bumped| ==>
      bumped[p] == counts[p] + (if p in Region(starsAdded, toAdd, regionSize, dist) then 1 else 0)
    ensures CountsMatch(starsAdded + [toAdd], bumped + [|Region(starsAdded, toAdd, regionSize, dist)| + 1], regionSize, dist)
  {
    var next := starsAdded + [toAdd];
    forall p | 0 <= p < |starsAdded|
      ensures bumped[p] == 1 + Neighbours(next, p, |next|, regionSize, dist)
    {
      NeighboursAppend(starsAdded, toAdd, p, regionSize, dist);
    }
    NeighboursOfNew(starsAdded, toAdd, |starsAdded|, regionSize, dist);
    assert starsAdded[..|starsAdded|] == starsAdded;
  }

  /** One more star of input: the kept stars grow by it exactly when it is accepted. */
  lemma RegionsFilterStep(stars: seq<Star>, t: nat, regionSize: real, starsInRegion: nat,
                          dist: (Equatorial, Equatorial) -> real)
    requires t < |stars|
    ensures var kept := RegionsFilter(stars[..t], regionSize, starsInRegion, dist);
      RegionsFilter(stars[..t + 1], regionSize, starsInRegion, dist) ==
        kept + (if Accepts(kept, stars[t], regionSize, starsInRegion, dist) then [stars[t]] else [])
  {
    assert stars[..t + 1][..t] == stars[..t];
  }

  /** The scan's verdict is `Accepts` when the counts match. */
  lemma AcceptsByScan(starsAdded: seq<Star>, counts: seq<nat>, toAdd: Star, region: seq<nat>, lonely: bool,
                      regionSize: real, starsInRegion: nat, dist: (Equatorial, Equatorial) -> real)
    requires CountsMatch(starsAdded, counts, regionSize, dist)
    requires region == Region(starsAdded, toAdd, regionSize, dist)
    requires lonely <==> exists j :: 0 <= j < |starsAdded| && Close(toAdd, starsAdded[j], regionSize, dist) &&
                                    counts[j] < starsInRegion
    ensures (|region| < starsInRegion || lonely) <==> Accepts(starsAdded, toAdd, regionSize, starsInRegion, dist)
  {
  }

  /** One pass of the outer loop of `limit_regions`: scan the region of `toAdd` and add it if accepted. */
  method AddIfAccepted(starsAdded: seq<Star>, counts: seq<nat>, toAdd: Star, regionSize: real, starsInRegion: nat,
                       dist: (Equatorial, Equatorial) -> real)
    returns (added: seq<Star>, newCounts: seq<nat>)
    requires CountsMatch(starsAdded, counts, regionSize, dist)
    ensures added == starsAdded + (if Accepts(starsAdded, toAdd, regionSize, starsInRegion, dist) then [toAdd] else [])
    ensures CountsMatch(added, newCounts, regionSize, dist)
  {
    var region, lonely := ScanRegion(starsAdded, counts, toAdd, regionSize, starsInRegion, dist);
    AcceptsByScan(starsAdded, counts, toAdd, region, lonely, regionSize, starsInRegion, dist);
    added, newCounts := starsAdded, counts;
    if |region| < starsInRegion || lonely {
      var bumped := CountNeighbour(counts, region);
      CountsAfterAdd(starsAdded, counts, bumped, toAdd, regionSize, dist);
      added := starsAdded + [toAdd];
      newCounts := bumped + [|region| + 1];
    }
  }

  /**
   * `limit_regions`: keep each star in turn when the stars kept so far
   * accept it, counting for every kept star how many kept stars share
   * its region. The caller must ask for more than 3 stars per region.
   */
  method LimitRegions(stars: seq<Star>, regionSize: real, starsInRegion: nat, dist: (Equatorial, Equatorial) -> real)
    returns (starsAdded: seq<Star>)
    requires 3 < starsInRegion
    ensures starsAdded == RegionsFilter(stars, regionSize, starsInRegion, dist)
  {
    starsAdded := [];
    var starsAddedCount: seq<nat> := [];
    for t := 0 to |stars|
      invariant starsAdded == RegionsFilter(stars[..t], regionSize, starsInRegion, dist)
      invariant CountsMatch(starsAdded, starsAddedCount, regionSize, dist)
    {
      RegionsFilterStep(stars, t, regionSize, starsInRegion, dist);
      starsAdded, starsAddedCount := AddIfAccepted(starsAdded, starsAddedCount, stars[t], regionSize, starsInRegion, dist);
    }
    assert stars[..|stars|] == stars;
  }
}
