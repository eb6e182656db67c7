/**
 * The Java catalogue `Preprocessor`: read `magnitude,ra,dec` rows, keep
 * the bright ones, sort them brightest first, and for each pilot star
 * choose its nearby companions and record the angle of every triple of
 * them. Splitting a line, parsing a number, the distance between two
 * stars and the angle of a star set are parameters.
 */
module Preprocessors {
  import opened Errors
  import opened CatalogueStars
  import Sorting

  // ------------------------------------------------------------------
  // preprocess
  // ------------------------------------------------------------------

  /** What one line yields: a star, a line skipped for a bad number, or an exception that escapes. */
  datatype LineOutcome = Parsed(star: Star) | Rejected | Crash

  /**
   * One line, split at its commas: field 1 is parsed first, then field 2,
   * then field 0. A number that does not parse skips the line; a missing
   * field is an index error that nothing catches.
   */
  function ReadLine(fields: seq<string>, parse: string -> Option<real>): (o: LineOutcome)
    ensures o.Parsed? <==> 3 <= |fields| && parse(fields[0]).Some? && parse(fields[1]).Some? && parse(fields[2]).Some?
    ensures o.Parsed? ==> o.star == Star(parse(fields[0]).value, parse(fields[1]).value, parse(fields[2]).value)
    ensures o.Crash? <==> |fields| < 2 || (|fields| == 2 && parse(fields[1]).Some?)
  {
    if |fields| < 2 then Crash
    else if parse(fields[1]).None? then Rejected
    else if |fields| < 3 then Crash
    else if parse(fields[2]).None? then Rejected
    else if parse(fields[0]).None? then Rejected
    else Parsed(Star(parse(fields[0]).value, parse(fields[1]).value, parse(fields[2]).value))
  }

  /** `preprocess` on a list of lines: `None` when an exception escapes. */
  function Preprocessed(lines: seq<string>, cutOff: real, split: string -> seq<string>,
                        parse: string -> Option<real>): (r: Option<seq<Star>>)
    ensures r.Some? ==> |r.value| <= |lines|
    ensures r.Some? ==> forall s :: s in r.value ==> s.attribute < cutOff
  {
    if |lines| == 0 then Some([])
    else
      match Preprocessed(lines[..|lines| - 1], cutOff, split, parse)
      case None => None
      case Some(kept) =>
        match ReadLine(split(lines[|lines| - 1]), parse)
        case Crash => None
        case Rejected => Some(kept)
        case Parsed(s) => if s.attribute < cutOff then Some(kept + [s]) else Some(kept)
  }

  /** The star a line contributes to the output, if any. */
  predicate Keeps(line: string, cutOff: real, split: string -> seq<string>, parse: string -> Option<real>, s: Star)
  {
    ReadLine(split(line), parse) == Parsed(s) && s.attribute < cutOff
  }

  /**
   * The output exists exactly when no line crashes; it then holds the
   * stars of the lines that parse with a magnitude below the cut-off, and
   * nothing else.
   */
  lemma {:induction false} PreprocessedKeeps(lines: seq<string>, cutOff: real, split: string -> seq<string>,
                                             parse: string -> Option<real>)
    ensures Preprocessed(lines, cutOff, split, parse).Some? <==>
      forall i :: 0 <= i < |lines| ==> !ReadLine(split(lines[i]), parse).Crash?
    ensures Preprocessed(lines, cutOff, split, parse).Some? ==>
      var kept := Preprocessed(lines, cutOff, split, parse).value;
      |kept| <= |lines| &&
      (forall s :: s in kept <==> exists i :: 0 <= i < |lines| && Keeps(lines[i], cutOff, split, parse, s))
  {
    if |lines| > 0 {
      var front := lines[..|lines| - 1];
      PreprocessedKeeps(front, cutOff, split, parse);
      assert forall i :: 0 <= i < |front| ==> front[i] == lines[i];
    }
  }

  /** `preprocess`: the lines read in order, the bright parseable ones kept. */
  method Preprocess(lines: seq<string>, cutOff: real, split: string -> seq<string>,
                    parse: string -> Option<real>) returns (r: Option<seq<Star>>)
    ensures r == Preprocessed(lines, cutOff, split, parse)
  {
    var list: seq<Star> := [];
    var it := 0;
    while it < |lines|
      invariant 0 <= it <= |lines|
      invariant Preprocessed(lines[..it], cutOff, split, parse) == Some(list)
    {
      var line := lines[it];
      assert lines[..it + 1][..it] == lines[..it];
      it := it + 1;
      var outcome := ReadLine(split(line), parse);
      if outcome.Crash? {
        assert Preprocessed(lines[..it], cutOff, split, parse) == None;
        PreprocessedAbsorbs(lines, it, cutOff, split, parse);
        return None;
      }
      if outcome.Parsed? && outcome.star.attribute < cutOff {
        list := list + [outcome.star];
      }
    }
    assert lines[..it] == lines;
    return Some(list);
  }

  /** Once a line has crashed, the lines after it do not matter. */
  lemma {:induction false} PreprocessedAbsorbs(lines: seq<string>, k: nat, cutOff: real,
                                               split: string -> seq<string>, parse: string -> Option<real>)
    requires k <= |lines|
    requires Preprocessed(lines[..k], cutOff, split, parse) == None
    ensures Preprocessed(lines, cutOff, split, parse) == None
    decreases |lines| - k
  {
    if k < |lines| {
      assert lines[..k + 1][..k] == lines[..k];
      PreprocessedAbsorbs(lines, k + 1, cutOff, split, parse);
    } else {
      assert lines[..k] == lines;
    }
  }

  // ------------------------------------------------------------------
  // findClosestBrightest
  // ------------------------------------------------------------------

  /** The stars of `s` closer to `pilot` than `radius`, in list order. */
  function Near(s: seq<Star>, pilot: Star, radius: real, dist: (Star, Star) -> real): (r: seq<Star>)
    ensures |r| <= |s|
  {
    if |s| == 0 then []
    else Near(s[..|s| - 1], pilot, radius, dist) + (if dist(s[|s| - 1], pilot) < radius then [s[|s| - 1]] else [])
  }

  /** Exactly the close stars of `s` appear in `Near`. */
  lemma {:induction false} NearMembers(s: seq<Star>, pilot: Star, radius: real, dist: (Star, Star) -> real)
    ensures forall x :: x in Near(s, pilot, radius, dist) <==> x in s && dist(x, pilot) < radius
  {
    if |s| > 0 {
      NearMembers(s[..|s| - 1], pilot, radius, dist);
      assert s == s[..|s| - 1] + [s[|s| - 1]];
    }
  }

  /** Filtering a list in two pieces is filtering it whole. */
  lemma {:induction false} NearAppend(a: seq<Star>, b: seq<Star>, pilot: Star, radius: real, dist: (Star, Star) -> real)
    ensures Near(a + b, pilot, radius, dist) == Near(a, pilot, radius, dist) + Near(b, pilot, radius, dist)
  {
    if |b| > 0 {
      assert (a + b)[..|a + b| - 1] == a + b[..|b| - 1];
      NearAppend(a, b[..|b| - 1], pilot, radius, dist);
    } else {
      assert a + b == a;
    }
  }

  /**
   * `findClosestBrightest`: `None` (Java's `null`) for a list of three
   * stars or fewer; otherwise the first `num` stars after the head of the
   * list that lie within `radius` of the pilot, or `None` when there are
   * not that many.
   */
  function ClosestBrightest(pilot: Star, stars: seq<Star>, num: nat, radius: real,
                            dist: (Star, Star) -> real): (r: Option<seq<Star>>)
    ensures r.Some? <==> 3 < |stars| && num <= |Near(stars[1..], pilot, radius, dist)|
    ensures r.Some? ==> |r.value| == num && forall x :: x in r.value ==> x in stars[1..] && dist(x, pilot) < radius
  {
    if |stars| <= 3 then None
    else
      var near := Near(stars[1..], pilot, radius, dist);
      NearMembers(stars[1..], pilot, radius, dist);
      if num <= |near| then Some(near[..num]) else None
  }

  /** One step of the iterator: the filter over one more star. */
  lemma NearStep(stars: seq<Star>, it: nat, pilot: Star, radius: real, dist: (Star, Star) -> real)
    requires 1 <= it < |stars|
    ensures Near(stars[1..it + 1], pilot, radius, dist) ==
      Near(stars[1..it], pilot, radius, dist) + (if dist(stars[it], pilot) < radius then [stars[it]] else [])
  {
    assert stars[1..it + 1][..it - 1] == stars[1..it];
    assert stars[1..it + 1][it - 1] == stars[it];
  }

  /** `findClosestBrightest` as written: an iterator skips the head of the list and then hunts for each star in turn. */
  method FindClosestBrightest(pilot: Star, stars: seq<Star>, num: nat, radius: real,
                              dist: (Star, Star) -> real) returns (close: Option<seq<Star>>)
    ensures close == ClosestBrightest(pilot, stars, num, radius, dist)
  {
    if |stars| <= 3 {
      return None;
    }
    var picked: seq<Star> := [];
    var it := 1;
    var found := true;
    var i := 0;
    while i < num && found
      invariant 0 <= i <= num && 1 <= it <= |stars|
      invariant found ==> |picked| == i && picked == Near(stars[1..it], pilot, radius, dist)
      invariant !found ==> 0 < i && |picked| == i - 1 && picked == Near(stars[1..], pilot, radius, dist)
    {
      var cur;
      cur, it, found := NextNear(pilot, stars, it, radius, dist, picked);
      if found {
        picked := picked + [cur];
      } else {
        assert stars[1..it] == stars[1..];
      }
      i := i + 1;
    }
    if !found {
      return None;
    }
    NearAppend(stars[1..it], stars[it..], pilot, radius, dist);
    assert stars[1..it] + stars[it..] == stars[1..];
    return Some(picked);
  }

  /**
   * The inner loop of `findClosestBrightest`: advances the iterator from
   * `it` to just past the next star within `radius`, or to the end.
   */
  method NextNear(pilot: Star, stars: seq<Star>, it: nat, radius: real, dist: (Star, Star) -> real,
                  ghost picked: seq<Star>)
    returns (cur: Star, next: nat, found: bool)
    requires 1 <= it <= |stars| && picked == Near(stars[1..it], pilot, radius, dist)
    ensures it <= next <= |stars|
    ensures !found ==> next == |stars| && picked == Near(stars[1..next], pilot, radius, dist)
    ensures found ==> picked + [cur] == Near(stars[1..next], pilot, radius, dist)
  {
    found := false;
    cur := pilot;
    next := it;
    while next < |stars| && !found
      invariant it <= next <= |stars|
      invariant !found ==> picked == Near(stars[1..next], pilot, radius, dist)
      invariant found ==> picked + [cur] == Near(stars[1..next], pilot, radius, dist)
    {
      cur := stars[next];
      NearStep(stars, next, pilot, radius, dist);
      next := next + 1;
      found := dist(cur, pilot) < radius;
    }
  }

  // ------------------------------------------------------------------
  // combinations
  // ------------------------------------------------------------------

  /** A `StarSet`: the angle of the triple and the pilot and three stars it was made from. */
  datatype StarSet = StarSet(attribute: real, pilot: Star, a: Star, b: Star, c: Star)

  /** The set made from positions `i`, `j`, `k`, dropped when its angle is NaN or infinite (`None`). */
  function Triple(pilot: Star, o: seq<Star>, i: nat, j: nat, k: nat,
                  angle: (Star, Star, Star, Star) -> Option<real>): (r: seq<StarSet>)
    requires i < |o| && j < |o| && k < |o|
    ensures |r| == 0 <==> angle(pilot, o[i], o[j], o[k]).None?
    ensures |r| <= 1
    ensures |r| == 1 ==> r[0] == StarSet(angle(pilot, o[i], o[j], o[k]).value, pilot, o[i], o[j], o[k])
  {
    var v := angle(pilot, o[i], o[j], o[k]);
    if v.Some? then [StarSet(v.value, pilot, o[i], o[j], o[k])] else []
  }

  /** The innermost loop after `kk` has run from `j + 1` up to `k`. */
  function KLoop(pilot: Star, o: seq<Star>, i: nat, j: nat, k: nat,
                 angle: (Star, Star, Star, Star) -> Option<real>): seq<StarSet>
    requires i < j < |o| && k <= |o|
  {
    if k <= j + 1 then [] else KLoop(pilot, o, i, j, k - 1, angle) + Triple(pilot, o, i, j, k - 1, angle)
  }

  /** The middle loop after `jj` has run from `i + 1` up to `j`. */
  function JLoop(pilot: Star, o: seq<Star>, i: nat, j: nat,
                 angle: (Star, Star, Star, Star) -> Option<real>): seq<StarSet>
    requires i < |o| && j <= |o|
  {
    if j <= i + 1 then [] else JLoop(pilot, o, i, j - 1, angle) + KLoop(pilot, o, i, j - 1, |o|, angle)
  }

  /** The outer loop after `ii` has run up to `i`. */
  function ILoop(pilot: Star, o: seq<Star>, i: nat, angle: (Star, Star, Star, Star) -> Option<real>): seq<StarSet>
    requires i <= |o|
  {
    if i == 0 then [] else ILoop(pilot, o, i - 1, angle) + JLoop(pilot, o, i - 1, |o|, angle)
  }

  /** Every set made is the set of one triple of positions `i < j < k` whose angle is finite. */
  predicate MadeFrom(e: StarSet, pilot: Star, o: seq<Star>, i: nat, j: nat, k: nat,
                     angle: (Star, Star, Star, Star) -> Option<real>)
  {
    i < j < k < |o| && angle(pilot, o[i], o[j], o[k]) == Some(e.attribute) &&
    e == StarSet(e.attribute, pilot, o[i], o[j], o[k])
  }

  lemma {:induction false} KLoopSource(pilot: Star, o: seq<Star>, i: nat, j: nat, k: nat,
                                       angle: (Star, Star, Star, Star) -> Option<real>, e: StarSet) returns (kk: nat)
    requires i < j < |o| && k <= |o| && e in KLoop(pilot, o, i, j, k, angle)
    ensures MadeFrom(e, pilot, o, i, j, kk, angle) && kk < k
  {
    assert j + 1 < k;
    var inLast := InLast(KLoop(pilot, o, i, j, k - 1, angle), Triple(pilot, o, i, j, k - 1, angle), e);
    if !inLast {
      kk := KLoopSource(pilot, o, i, j, k - 1, angle, e);
    } else {
      kk := k - 1;
    }
  }

  lemma {:induction false} JLoopSource(pilot: Star, o: seq<Star>, i: nat, j: nat,
                                       angle: (Star, Star, Star, Star) -> Option<real>, e: StarSet) returns (jj: nat, kk: nat)
    requires i < |o| && j <= |o| && e in JLoop(pilot, o, i, j, angle)
    ensures MadeFrom(e, pilot, o, i, jj, kk, angle)
  {
    assert i + 1 < j;
    var inLast := InLast(JLoop(pilot, o, i, j - 1, angle), KLoop(pilot, o, i, j - 1, |o|, angle), e);
    if inLast {
      jj := j - 1;
      kk := KLoopSource(pilot, o, i, j - 1, |o|, angle, e);
    } else {
      jj, kk := JLoopSource(pilot, o, i, j - 1, angle, e);
    }
  }

  /** Each set `combinations` appends comes from one triple `i < j < k` of the companions with a finite angle. */
  lemma {:induction false} CombinationSource(pilot: Star, o: seq<Star>, n: nat,
                                             angle: (Star, Star, Star, Star) -> Option<real>, e: StarSet)
    returns (i: nat, j: nat, k: nat)
    requires n <= |o| && e in ILoop(pilot, o, n, angle)
    ensures MadeFrom(e, pilot, o, i, j, k, angle)
  {
    assert 0 < n;
    var inLast := InLast(ILoop(pilot, o, n - 1, angle), JLoop(pilot, o, n - 1, |o|, angle), e);
    if inLast {
      i := n - 1;
      j, k := JLoopSource(pilot, o, n - 1, |o|, angle, e);
    } else {
      i, j, k := CombinationSource(pilot, o, n - 1, angle, e);
    }
  }

  /** Every set `combinations` appends holds the pilot it was called with. */
  lemma ILoopPilot(pilot: Star, o: seq<Star>, angle: (Star, Star, Star, Star) -> Option<real>)
    ensures forall e :: e in ILoop(pilot, o, |o|, angle) ==> e.pilot == pilot
  {
    forall e | e in ILoop(pilot, o, |o|, angle)
      ensures e.pilot == pilot
    {
      var i, j, k := CombinationSource(pilot, o, |o|, angle, e);
    }
  }

  /** Where an element of `front + last` is: `true` when it is in `last`, otherwise it is in `front`. */
  lemma InLast<T>(front: seq<T>, last: seq<T>, e: T) returns (inLast: bool)
    requires e in front + last
    ensures inLast ==> e in last
    ensures !inLast ==> e in front
  {
    inLast := e !in front;
  }

  /** The number of ways to choose 2, and 3, out of `m`. */
  function Choose2(m: nat): nat
  {
    if m == 0 then 0 else Choose2(m - 1) + (m - 1)
  }

  function Choose3(m: nat): nat
  {
    if m == 0 then 0 else Choose3(m - 1) + Choose2(m - 1)
  }

  lemma {:induction false} Choose2Closed(m: nat)
    ensures 2 * Choose2(m) == m * (m - 1)
  {
    if m > 0 {
      Choose2Closed(m - 1);
    }
  }

  /** `Choose3` is the binomial coefficient m(m-1)(m-2)/6. */
  lemma {:induction false} Choose3Closed(m: nat)
    ensures 6 * Choose3(m) == m * (m - 1) * (m - 2)
  {
    if m > 0 {
      Choose3Closed(m - 1);
      Choose2Closed(m - 1);
      Pascal3(m);
    }
  }

  /** m(m-1)(m-2) = (m-1)(m-2)(m-3) + 3(m-1)(m-2): the step from C(m-1, 3) to C(m, 3). */
  lemma Pascal3(m: int)
    ensures m * (m - 1) * (m - 2) == (m - 1) * (m - 2) * (m - 3) + 3 * ((m - 1) * (m - 2))
  {
  }

  lemma {:induction false} KLoopLength(pilot: Star, o: seq<Star>, i: nat, j: nat, k: nat,
                                       angle: (Star, Star, Star, Star) -> Option<real>)
    requires i < j < |o| && j < k <= |o|
    ensures |KLoop(pilot, o, i, j, k, angle)| <= k - j - 1
  {
    if k > j + 1 {
      KLoopLength(pilot, o, i, j, k - 1, angle);
    }
  }

  lemma {:induction false} JLoopLength(pilot: Star, o: seq<Star>, i: nat, j: nat,
                                       angle: (Star, Star, Star, Star) -> Option<real>)
    requires i < j <= |o|
    ensures |JLoop(pilot, o, i, j, angle)| + Choose2(|o| - j) <= Choose2(|o| - i - 1)
  {
    if j > i + 1 {
      JLoopLength(pilot, o, i, j - 1, angle);
      KLoopLength(pilot, o, i, j - 1, |o|, angle);
      JLoopStep(pilot, o, i, j, angle);
      SumBound(|JLoop(pilot, o, i, j, angle)|, |JLoop(pilot, o, i, j - 1, angle)|, |KLoop(pilot, o, i, j - 1, |o|, angle)|,
               Choose2(|o| - j), Choose2(|o| - (j - 1)), Choose2(|o| - i - 1), |o| - j);
    }
  }

  /** The arithmetic of one middle step: a part within its bound and a step within its share stay within the whole. */
  lemma SumBound(total: nat, front: nat, last: nat, rest: nat, restBefore: nat, whole: nat, m: nat)
    requires total == front + last && front + restBefore <= whole && last <= m && restBefore == rest + m
    ensures total + rest <= whole
  {
  }

  /** One more middle step adds a whole inner loop, and C(m + 1, 2) = C(m, 2) + m. */
  lemma JLoopStep(pilot: Star, o: seq<Star>, i: nat, j: nat, angle: (Star, Star, Star, Star) -> Option<real>)
    requires i + 1 < j <= |o|
    ensures |JLoop(pilot, o, i, j, angle)| == |JLoop(pilot, o, i, j - 1, angle)| + |KLoop(pilot, o, i, j - 1, |o|, angle)|
    ensures Choose2(|o| - (j - 1)) == Choose2(|o| - j) + (|o| - j)
  {
  }

  /** C(m + 1, 3) = C(m, 3) + C(m, 2). */
  lemma Choose3Step(m: nat)
    ensures Choose3(m + 1) == Choose3(m) + Choose2(m)
  {
  }

  lemma {:induction false} ILoopLength(pilot: Star, o: seq<Star>, i: nat,
                                       angle: (Star, Star, Star, Star) -> Option<real>)
    requires i <= |o|
    ensures |ILoop(pilot, o, i, angle)| + Choose3(|o| - i) <= Choose3(|o|)
  {
    if i > 0 {
      ILoopLength(pilot, o, i - 1, angle);
      JLoopLength(pilot, o, i - 1, |o|, angle);
      var front, last := ILoop(pilot, o, i - 1, angle), JLoop(pilot, o, i - 1, |o|, angle);
      assert ILoop(pilot, o, i, angle) == front + last;
      Choose3Step(|o| - i);
    }
  }

  /**
   * `combinations` appends at most one set per triple of companions, so at
   * most C(n, 3) of them.
   */
  lemma CombinationsCount(pilot: Star, o: seq<Star>, angle: (Star, Star, Star, Star) -> Option<real>)
    ensures 6 * |ILoop(pilot, o, |o|, angle)| <= |o| * (|o| - 1) * (|o| - 2)
  {
    ILoopLength(pilot, o, |o|, angle);
    Choose3Closed(|o|);
  }

  /** `combinations`: three nested loops over `ii < jj < kk`, appending each set with a finite angle. */
  method Combinations(pilot: Star, otherStars: seq<Star>, compStars: seq<StarSet>,
                      angle: (Star, Star, Star, Star) -> Option<real>) returns (out: seq<StarSet>)
    ensures out == compStars + ILoop(pilot, otherStars, |otherStars|, angle)
  {
    out := compStars;
    for ii := 0 to |otherStars|
      invariant out == compStars + ILoop(pilot, otherStars, ii, angle)
    {
      out := CombinationsFrom(pilot, otherStars, ii, out, angle);
    }
  }

  /** The middle and inner loops for one `ii`. */
  method CombinationsFrom(pilot: Star, otherStars: seq<Star>, ii: nat, prefix: seq<StarSet>,
                          angle: (Star, Star, Star, Star) -> Option<real>) returns (out: seq<StarSet>)
    requires ii < |otherStars|
    ensures out == prefix + JLoop(pilot, otherStars, ii, |otherStars|, angle)
  {
    out := prefix;
    for jj := ii + 1 to |otherStars|
      invariant out == prefix + JLoop(pilot, otherStars, ii, jj, angle)
    {
      out := TriplesFrom(pilot, otherStars, ii, jj, prefix, out, angle);
    }
  }

  /** Appending the inner loop's sets for `jj` completes the middle loop up to `jj + 1`. */
  lemma JLoopAppend(pilot: Star, o: seq<Star>, ii: nat, jj: nat, prefix: seq<StarSet>, out: seq<StarSet>,
                    angle: (Star, Star, Star, Star) -> Option<real>)
    requires ii < jj < |o| && out == prefix + JLoop(pilot, o, ii, jj, angle)
    ensures out + KLoop(pilot, o, ii, jj, |o|, angle) == prefix + JLoop(pilot, o, ii, jj + 1, angle)
  {
    SeqAssoc(prefix, JLoop(pilot, o, ii, jj, angle), KLoop(pilot, o, ii, jj, |o|, angle));
  }

  /** Appending the sets of `kk` completes the inner loop up to `kk + 1`. */
  lemma KLoopAppend(pilot: Star, o: seq<Star>, ii: nat, jj: nat, kk: nat, prefix: seq<StarSet>, out: seq<StarSet>,
                    angle: (Star, Star, Star, Star) -> Option<real>)
    requires ii < jj < kk < |o| && out == prefix + KLoop(pilot, o, ii, jj, kk, angle)
    ensures out + Triple(pilot, o, ii, jj, kk, angle) == prefix + KLoop(pilot, o, ii, jj, kk + 1, angle)
  {
    SeqAssoc(prefix, KLoop(pilot, o, ii, jj, kk, angle), Triple(pilot, o, ii, jj, kk, angle));
  }

  /**
   * The inner loop for one `ii` and `jj`: appends the sets of every `kk`
   * after `jj` to `acc`, the middle loop's output so far.
   */
  method TriplesFrom(pilot: Star, otherStars: seq<Star>, ii: nat, jj: nat, ghost prefix: seq<StarSet>, acc: seq<StarSet>,
                     angle: (Star, Star, Star, Star) -> Option<real>) returns (out: seq<StarSet>)
    requires ii < jj < |otherStars| && acc == prefix + JLoop(pilot, otherStars, ii, jj, angle)
    ensures out == prefix + JLoop(pilot, otherStars, ii, jj + 1, angle)
  {
    out := acc;
    for kk := jj + 1 to |otherStars|
      invariant out == acc + KLoop(pilot, otherStars, ii, jj, kk, angle)
    {
      KLoopAppend(pilot, otherStars, ii, jj, kk, acc, out, angle);
      var v := angle(pilot, otherStars[ii], otherStars[jj], otherStars[kk]);
      if v.Some? {
        out := out + [StarSet(v.value, pilot, otherStars[ii], otherStars[jj], otherStars[kk])];
      } else {
        assert out + [] == out;
      }
    }
    JLoopAppend(pilot, otherStars, ii, jj, prefix, acc, angle);
  }

  // ------------------------------------------------------------------
  // getAngles
  // ------------------------------------------------------------------

  /** The sets one pilot contributes: the combinations of its companions, if it has enough of them. */
  function PilotSets(pilot: Star, rest: seq<Star>, pilotSets: nat, radius: real, dist: (Star, Star) -> real,
                     angle: (Star, Star, Star, Star) -> Option<real>): (r: seq<StarSet>)
    ensures forall e :: e in r ==> e.pilot == pilot
  {
    var s := ClosestBrightest(pilot, rest, pilotSets, radius, dist);
    if s.Some? then ILoopPilot(pilot, s.value, angle); ILoop(pilot, s.value, |s.value|, angle) else []
  }

  /** The sets `getAngles` outputs for the list `stars`. */
  function Angles(stars: seq<Star>, pilotSets: nat, radius: real, dist: (Star, Star) -> real,
                  angle: (Star, Star, Star, Star) -> Option<real>): (r: seq<StarSet>)
    ensures |stars| <= 1 ==> r == []
    ensures forall e :: e in r ==> e.pilot in stars
    decreases |stars|
  {
    if |stars| <= 1 then []
    else
      PilotSets(stars[0], stars[1..], pilotSets, radius, dist, angle) + Angles(stars[1..][1..], pilotSets, radius, dist, angle)
  }

  /**
   * `getAngles`: while more than one star is left, take the first as the
   * pilot, search the rest for its companions, add their combinations and
   * drop one more star. Returns the output and what is left of the list.
   */
  method GetAngles(stars: seq<Star>, pilotSets: nat, radiusPilot: real, dist: (Star, Star) -> real,
                   angle: (Star, Star, Star, Star) -> Option<real>) returns (output: seq<StarSet>, remaining: seq<Star>)
    ensures output == Angles(stars, pilotSets, radiusPilot, dist, angle)
    ensures remaining == stars[|stars| - |stars| % 2..]
  {
    output := [];
    remaining := stars;
    ghost var start, turns := 0, 0;
    while |remaining| > 1
      invariant start <= |stars| && start == 2 * turns && remaining == stars[start..]
      invariant output + Angles(remaining, pilotSets, radiusPilot, dist, angle) == Angles(stars, pilotSets, radiusPilot, dist, angle)
    {
      AnglesUnfold(remaining, pilotSets, radiusPilot, dist, angle);
      ghost var before := output;
      ghost var later := Angles(remaining[2..], pilotSets, radiusPilot, dist, angle);
      output := PilotAngles(remaining[0], remaining[1..], pilotSets, radiusPilot, dist, angle, output);
      SeqAssoc(before, PilotSets(remaining[0], remaining[1..], pilotSets, radiusPilot, dist, angle), later);
      assert remaining[2..] == stars[start + 2..];
      remaining := remaining[2..];
      start, turns := start + 2, turns + 1;
    }
    EvenPart(|stars|, turns);
  }

  /** A list walked two stars at a time stops with its odd star left, if it has one. */
  lemma EvenPart(n: nat, turns: nat)
    requires 2 * turns <= n <= 2 * turns + 1
    ensures 2 * turns == n - n % 2
  {
    if n == 2 * turns {
      assert n % 2 == 0;
    } else {
      assert n % 2 == 1;
    }
  }

  lemma SeqAssoc(a: seq<StarSet>, b: seq<StarSet>, c: seq<StarSet>)
    ensures (a + b) + c == a + (b + c)
  {
  }

  /** One turn of the `getAngles` loop: find the pilot's companions and add their combinations. */
  method PilotAngles(pilot: Star, rest: seq<Star>, pilotSets: nat, radius: real, dist: (Star, Star) -> real,
                     angle: (Star, Star, Star, Star) -> Option<real>, prefix: seq<StarSet>) returns (output: seq<StarSet>)
    ensures output == prefix + PilotSets(pilot, rest, pilotSets, radius, dist, angle)
  {
    output := prefix;
    var s := FindClosestBrightest(pilot, rest, pilotSets, radius, dist);
    if s.Some? {
      output := Combinations(pilot, s.value, output, angle);
    }
  }

  /** The list unfolded once: the sets of the first pilot, then those of the list two stars on. */
  lemma AnglesUnfold(r: seq<Star>, pilotSets: nat, radius: real, dist: (Star, Star) -> real,
                     angle: (Star, Star, Star, Star) -> Option<real>)
    requires |r| > 1
    ensures Angles(r, pilotSets, radius, dist, angle) ==
      PilotSets(r[0], r[1..], pilotSets, radius, dist, angle) + Angles(r[2..], pilotSets, radius, dist, angle)
  {
    assert r[1..][1..] == r[2..];
  }

  /**
   * Where each output set comes from: its pilot is a star at an even
   * position `2t`, and its three companions come from after position
   * `2t + 1`. The star right after each pilot is neither a pilot nor one
   * of its companions.
   */
  lemma {:induction false} AnglesSource(stars: seq<Star>, pilotSets: nat, radius: real, dist: (Star, Star) -> real,
                                        angle: (Star, Star, Star, Star) -> Option<real>, e: StarSet) returns (t: nat)
    requires e in Angles(stars, pilotSets, radius, dist, angle)
    ensures 2 * t + 1 < |stars| && e.pilot == stars[2 * t]
    ensures e.a in stars[2 * t + 2..] && e.b in stars[2 * t + 2..] && e.c in stars[2 * t + 2..]
    decreases |stars|
  {
    var rest := stars[1..];
    var s := ClosestBrightest(stars[0], rest, pilotSets, radius, dist);
    if e in PilotSets(stars[0], rest, pilotSets, radius, dist, angle) {
      var i, j, k := CombinationSource(stars[0], s.value, |s.value|, angle, e);
      assert s.value[i] in rest[1..] && s.value[j] in rest[1..] && s.value[k] in rest[1..];
      assert rest[1..] == stars[2..];
      t := 0;
    } else {
      var t' := AnglesSource(rest[1..], pilotSets, radius, dist, angle, e);
      assert rest[1..][2 * t'..] == stars[2 * t' + 2..];
      assert rest[1..][2 * t' + 2..] == stars[2 * (t' + 1) + 2..];
      t := t' + 1;
    }
  }

  // ------------------------------------------------------------------
  // sortStar and sortSet
  // ------------------------------------------------------------------

  /** `sortStar`: the stars in ascending order of attribute (brightest first for magnitudes). */
  function SortStar(list: seq<Star>): (r: seq<Star>)
    ensures multiset(r) == multiset(list)
    ensures Ascending(r)
  {
    var lt := (x: Star, y: Star) => x.attribute < y.attribute;
    assert Sorting.StrictWeakOrder(lt);
    Sorting.InsertionSortPermutes(list, lt);
    Sorting.InsertionSortOrdered(list, lt);
    Sorting.InsertionSort(list, lt)
  }

  /** Attributes never increase along `s`. */
  predicate SetsDescending(s: seq<StarSet>)
  {
    forall i, j :: 0 <= i < j < |s| ==> s[j].attribute <= s[i].attribute
  }

  /** `sortSet`: the star sets in descending order of angle. */
  function SortSet(list: seq<StarSet>): (r: seq<StarSet>)
    ensures multiset(r) == multiset(list)
    ensures SetsDescending(r)
  {
    var gt := (x: StarSet, y: StarSet) => x.attribute > y.attribute;
    assert Sorting.StrictWeakOrder(gt);
    Sorting.InsertionSortPermutes(list, gt);
    Sorting.InsertionSortOrdered(list, gt);
    Sorting.InsertionSort(list, gt)
  }
}
