/**
 * `StarTriangleIterator`: walks every combination of one database match
 * for each side of an observed star triangle, looking for three matches
 * that close into a triangle, and then walks the pilot stars that can
 * confirm it.
 *
 * The kernel iterator (which observed stars form the triangle) and the
 * chunk database search are outside this model: what `prep_new_kernel`
 * would produce next is a queue of prepared kernels, and what the database
 * returns for a pilot star is the `lookup` parameter of `PrepNewPilot`.
 */
module StarTriangleIterators {
  import opened Errors
  import opened StarPairs
  import opened Databases
  import opened StarTriangles

  /** `Match<T>`: what was observed, what the database says it is, and a weight. */
  datatype Match<T> = Match(input: T, output: T, weight: real)

  /** The match lists for the three sides of one observed triangle. */
  datatype SideMatches = SideMatches(a: seq<SearchResult>, b: seq<SearchResult>, c: seq<SearchResult>)

  /** What one `prep_new_kernel` produces: the observed triangle and its side matches. */
  datatype Kernel = Kernel(input: StarTriangle<nat>, sides: SideMatches)

  /**
   * Where `(a, b, c)` sits in the order `step` walks: `a` fastest, then
   * `b`, then `c`. The start position `(-1, 0, 0)` has rank -1.
   */
  function Rank(a: int, b: nat, c: nat, aMax: nat, bMax: nat): int
  {
    a + aMax * (b + bMax * c)
  }

  /** `(a, b, c)` is a combination: each index is inside its list. */
  predicate InRange(a: int, b: nat, c: nat, aMax: nat, bMax: nat, cMax: nat)
  {
    0 <= a < aMax && b < bMax && c < cMax
  }

  /** `(a, b, c)` is a combination or the start position `(-1, 0, 0)`. */
  predicate Started(a: int, b: nat, c: nat, aMax: nat, bMax: nat, cMax: nat)
  {
    InRange(a, b, c, aMax, bMax, cMax) || (a == -1 && b == 0 && c == 0)
  }

  /**
   * `step`: advance `a`; when it wraps, advance `b`; when that wraps too,
   * advance `c`; when `c` would wrap, the sequence has ended. The result
   * says whether the new indices are a combination. From the start or a
   * combination, it moves to the combination ranked one higher, and it
   * ends exactly after the last one.
   */
  method Step(a: int, b: nat, c: nat, aMax: nat, bMax: nat, cMax: nat) returns (more: bool, a': int, b': nat, c': nat)
    ensures -1 <= a ==> 0 <= a'
    ensures more ==> a' < aMax && b' < bMax && c' < cMax
    ensures Started(a, b, c, aMax, bMax, cMax) && more ==> InRange(a', b', c', aMax, bMax, cMax)
    ensures -1 <= a && (aMax == 0 || bMax == 0 || cMax == 0) ==> !more
    ensures Started(a, b, c, aMax, bMax, cMax) ==>
      (more <==> Rank(a, b, c, aMax, bMax) + 1 < aMax * bMax * cMax)
    ensures Started(a, b, c, aMax, bMax, cMax) && more ==>
      Rank(a', b', c', aMax, bMax) == Rank(a, b, c, aMax, bMax) + 1
  {
    a', b', c' := a, b, c;
    if a' < aMax - 1 {
      a' := a' + 1;
    } else {
      a' := 0;
      if b' < bMax - 1 {
        b' := b' + 1;
      } else {
        b' := 0;
        if c' < cMax - 1 {
          c' := c' + 1;
        } else {
          more := false;
          StepEnds(a, b, c, aMax, bMax, cMax);
          return;
        }
      }
    }
    more := a' < aMax && b' < bMax && c' < cMax;
    if Started(a, b, c, aMax, bMax, cMax) {
      if a < aMax - 1 {
        StepA(a, b, c, aMax, bMax, cMax);
      } else if b < bMax - 1 {
        StepB(a, b, c, aMax, bMax, cMax);
      } else {
        StepC(a, b, c, aMax, bMax, cMax);
      }
    }
  }

  lemma MulLe(m: nat, x: int, y: int)
    requires x <= y
    ensures m * x <= m * y
  {
    assert m * y - m * x == m * (y - x);
  }

  lemma MulSucc(m: int, x: int)
    ensures m * (x + 1) == m * x + m
  {
  }

  lemma MulAssoc(a: int, b: int, c: int)
    ensures a * (b * c) == a * b * c
  {
  }

  /** Moving one combination on leaves one fewer to go. */
  lemma RemainingShrinks(a: int, b: nat, c: nat, a': int, b': nat, c': nat, aMax: nat, bMax: nat, cMax: nat)
    requires Rank(a', b', c', aMax, bMax) == Rank(a, b, c, aMax, bMax) + 1
    ensures Remaining(a', b', c', aMax, bMax, cMax) < Remaining(a, b, c, aMax, bMax, cMax)
  {
  }

  /** A product of list sizes is zero exactly when one of the sizes is. */
  lemma TotalZero(aMax: nat, bMax: nat, cMax: nat)
    ensures aMax * bMax * cMax == 0 <==> aMax == 0 || bMax == 0 || cMax == 0
  {
    if 0 < aMax && 0 < bMax && 0 < cMax {
      MulLe(aMax, 1, bMax);
      MulLe(aMax * bMax, 1, cMax);
    }
  }

  /** The rank of a combination lies in `[0, aMax * bMax * cMax)`. */
  lemma RankBounds(a: int, b: nat, c: nat, aMax: nat, bMax: nat, cMax: nat)
    requires InRange(a, b, c, aMax, bMax, cMax)
    ensures 0 <= Rank(a, b, c, aMax, bMax) < aMax * bMax * cMax
  {
    var inner := b + bMax * c;
    MulLe(bMax, c, cMax - 1);
    MulSucc(bMax, cMax - 1);
    assert inner <= bMax * cMax - 1;
    MulLe(aMax, 0, inner);
    MulLe(aMax, inner, bMax * cMax - 1);
    MulSucc(aMax, bMax * cMax - 1);
    MulAssoc(aMax, bMax, cMax);
  }

  /** No two combinations share a rank, so `step` visits none of them twice. */
  lemma RankInjective(a1: int, b1: nat, c1: nat, a2: int, b2: nat, c2: nat, aMax: nat, bMax: nat, cMax: nat)
    requires InRange(a1, b1, c1, aMax, bMax, cMax) && InRange(a2, b2, c2, aMax, bMax, cMax)
    requires Rank(a1, b1, c1, aMax, bMax) == Rank(a2, b2, c2, aMax, bMax)
    ensures a1 == a2 && b1 == b2 && c1 == c2
  {
    var i1 := b1 + bMax * c1;
    var i2 := b2 + bMax * c2;
    MulLe(bMax, 0, c1);
    MulLe(bMax, 0, c2);
    SplitUnique(a1, i1, a2, i2, aMax);
    SplitUnique(b1, c1, b2, c2, bMax);
  }

  /** Writing a number as `low + m * high` with `0 <= low < m` is unique. */
  lemma SplitUnique(l1: int, h1: int, l2: int, h2: int, m: nat)
    requires 0 <= l1 < m && 0 <= l2 < m && 0 <= h1 && 0 <= h2
    requires l1 + m * h1 == l2 + m * h2
    ensures l1 == l2 && h1 == h2
  {
    if h1 < h2 {
      MulLe(m, h1 + 1, h2);
      MulSucc(m, h1);
    } else if h2 < h1 {
      MulLe(m, h2 + 1, h1);
      MulSucc(m, h2);
    }
  }

  /** Every rank below `aMax * bMax * cMax` is the rank of a combination, so `step` misses none. */
  lemma RankOnto(k: nat, aMax: nat, bMax: nat, cMax: nat) returns (a: nat, b: nat, c: nat)
    requires 0 < aMax && 0 < bMax && k < aMax * bMax * cMax
    ensures InRange(a, b, c, aMax, bMax, cMax) && Rank(a, b, c, aMax, bMax) == k
  {
    var q;
    a, q := DivMod(k, aMax);
    b, c := DivMod(q, bMax);
    if cMax <= c {
      MulLe(bMax, cMax, c);
      MulLe(aMax, bMax * cMax, q);
      MulAssoc(aMax, bMax, cMax);
      assert false;
    }
  }

  /** Euclidean division of `k` by `m`, as a low digit and a quotient. */
  lemma DivMod(k: nat, m: nat) returns (low: nat, high: nat)
    requires 0 < m
    ensures k == low + m * high && low < m
  {
    low, high := k % m, k / m;
  }

  /** `step` advancing `a`. */
  lemma StepA(a: int, b: nat, c: nat, aMax: nat, bMax: nat, cMax: nat)
    requires Started(a, b, c, aMax, bMax, cMax) && a < aMax - 1
    ensures Rank(a + 1, b, c, aMax, bMax) == Rank(a, b, c, aMax, bMax) + 1
    ensures InRange(a + 1, b, c, aMax, bMax, cMax) <==> Rank(a, b, c, aMax, bMax) + 1 < aMax * bMax * cMax
  {
    TotalZero(aMax, bMax, cMax);
    if InRange(a + 1, b, c, aMax, bMax, cMax) {
      RankBounds(a + 1, b, c, aMax, bMax, cMax);
    }
  }

  /** `step` wrapping `a` and advancing `b`. */
  lemma StepB(a: int, b: nat, c: nat, aMax: nat, bMax: nat, cMax: nat)
    requires Started(a, b, c, aMax, bMax, cMax) && aMax - 1 <= a && b < bMax - 1
    ensures Rank(0, b + 1, c, aMax, bMax) == Rank(a, b, c, aMax, bMax) + 1
    ensures InRange(0, b + 1, c, aMax, bMax, cMax) <==> Rank(a, b, c, aMax, bMax) + 1 < aMax * bMax * cMax
  {
    TotalZero(aMax, bMax, cMax);
    MulSucc(aMax, b + bMax * c);
    if InRange(0, b + 1, c, aMax, bMax, cMax) {
      RankBounds(0, b + 1, c, aMax, bMax, cMax);
    }
  }

  /** `step` wrapping `a` and `b` and advancing `c`. */
  lemma StepC(a: int, b: nat, c: nat, aMax: nat, bMax: nat, cMax: nat)
    requires Started(a, b, c, aMax, bMax, cMax) && aMax - 1 <= a && bMax - 1 <= b && c < cMax - 1
    ensures Rank(0, 0, c + 1, aMax, bMax) == Rank(a, b, c, aMax, bMax) + 1
    ensures InRange(0, 0, c + 1, aMax, bMax, cMax) <==> Rank(a, b, c, aMax, bMax) + 1 < aMax * bMax * cMax
  {
    TotalZero(aMax, bMax, cMax);
    if InRange(a, b, c, aMax, bMax, cMax) {
      MulSucc(bMax, c);
      MulSucc(aMax, bMax - 1 + bMax * c);
      RankBounds(0, 0, c + 1, aMax, bMax, cMax);
    }
  }

  /** `step` wrapping all three: the last combination has been passed. */
  lemma StepEnds(a: int, b: nat, c: nat, aMax: nat, bMax: nat, cMax: nat)
    requires aMax - 1 <= a && bMax - 1 <= b && cMax - 1 <= c
    ensures Started(a, b, c, aMax, bMax, cMax) ==> Rank(a, b, c, aMax, bMax) + 1 >= aMax * bMax * cMax
  {
    TotalZero(aMax, bMax, cMax);
    if InRange(a, b, c, aMax, bMax, cMax) {
      MulSucc(bMax, cMax - 1);
      MulSucc(aMax, bMax - 1 + bMax * (cMax - 1));
      MulAssoc(aMax, bMax, cMax);
    }
  }

  /** How many combinations `step` has still to visit after `(a, b, c)`, counting it. */
  function Remaining(a: int, b: nat, c: nat, aMax: nat, bMax: nat, cMax: nat): int
  {
    aMax * bMax * cMax - Rank(a, b, c, aMax, bMax)
  }

  lemma RemainingPositive(a: int, b: nat, c: nat, aMax: nat, bMax: nat, cMax: nat)
    requires InRange(a, b, c, aMax, bMax, cMax)
    ensures 0 < Remaining(a, b, c, aMax, bMax, cMax)
  {
    RankBounds(a, b, c, aMax, bMax, cMax);
  }

  /** How many combinations the side lists of `s` have: one match per side. */
  function Total(s: SideMatches): int
  {
    |s.a| * |s.b| * |s.c|
  }

  /** The combination `(a, b, c)` of `s`, when it is one, does not close into a triangle. */
  ghost predicate FailsAt(s: SideMatches, a: int, b: nat, c: nat)
  {
    InRange(a, b, c, |s.a|, |s.b|, |s.c|) ==>
      ConstructTriangle(s.a[a].result, s.b[b].result, s.c[c].result).None?
  }

  /** No combination of `s` ranked strictly between `lo` and `hi` closes into a triangle. */
  ghost predicate NoneClose(s: SideMatches, lo: int, hi: int)
  {
    forall a: int, b: nat, c: nat {:trigger FailsAt(s, a, b, c)} ::
      lo < Rank(a, b, c, |s.a|, |s.b|) < hi ==> FailsAt(s, a, b, c)
  }

  /** A combination that does not close extends the stretch before it that does not close either. */
  lemma NoneCloseStep(s: SideMatches, lo: int, a: int, b: nat, c: nat)
    requires InRange(a, b, c, |s.a|, |s.b|, |s.c|)
    requires NoneClose(s, lo, Rank(a, b, c, |s.a|, |s.b|))
    requires ConstructTriangle(s.a[a].result, s.b[b].result, s.c[c].result).None?
    ensures NoneClose(s, lo, Rank(a, b, c, |s.a|, |s.b|) + 1)
  {
    forall x: int, y: nat, z: nat | lo < Rank(x, y, z, |s.a|, |s.b|) < Rank(a, b, c, |s.a|, |s.b|) + 1
      ensures FailsAt(s, x, y, z)
    {
      if InRange(x, y, z, |s.a|, |s.b|, |s.c|) && Rank(x, y, z, |s.a|, |s.b|) == Rank(a, b, c, |s.a|, |s.b|) {
        RankInjective(x, y, z, a, b, c, |s.a|, |s.b|, |s.c|);
      }
    }
  }

  /** `NoneClose(s, -1, Total(s))` says that no combination of `s` at all closes into a triangle. */
  lemma NoneCloseAll(s: SideMatches, a: int, b: nat, c: nat)
    requires NoneClose(s, -1, Total(s)) && InRange(a, b, c, |s.a|, |s.b|, |s.c|)
    ensures ConstructTriangle(s.a[a].result, s.b[b].result, s.c[c].result).None?
  {
    RankBounds(a, b, c, |s.a|, |s.b|, |s.c|);
    assert FailsAt(s, a, b, c);
  }

  /** No combination of any of the first `n` kernels of `ks` closes. */
  ghost predicate Exhausted(ks: seq<Kernel>, n: int)
  {
    forall i :: 0 <= i < n && i < |ks| ==> NoneClose(ks[i].sides, -1, Total(ks[i].sides))
  }

  /**
   * Kernels dropped in two stretches: `d` of `ks`, then `e` of what was
   * left, the last of the first stretch exhausted between the two. All
   * `d + e - 1` kernels dropped before the current one are exhausted.
   */
  lemma ExhaustedJoin(ks: seq<Kernel>, d: nat, e: nat, last: SideMatches)
    requires d <= |ks| && e <= |ks| - d
    requires Exhausted(ks, d - 1) && Exhausted(ks[d..], e - 1)
    requires 0 < d && 0 < e ==> ks[d - 1].sides == last && NoneClose(last, -1, Total(last))
    ensures Exhausted(ks, d + e - 1)
  {
    forall i | 0 <= i < d + e - 1 && i < |ks|
      ensures NoneClose(ks[i].sides, -1, Total(ks[i].sides))
    {
      if d <= i {
        assert ks[i] == ks[d..][i - d];
      }
    }
  }

  /** The count of combinations is never negative. */
  lemma TotalNonNegative(s: SideMatches)
    ensures 0 <= Total(s)
  {
    MulLe(|s.a|, 0, |s.b|);
    MulLe(|s.a| * |s.b|, 0, |s.c|);
  }

  /** The number of the triangle's stars at or above `p`: what is left for the pilot scan to skip. */
  function Above(t: StarTriangle<nat>, p: int): nat
  {
    (if p <= t.0 then 1 else 0) + (if p <= t.1 then 1 else 0) + (if p <= t.2 then 1 else 0)
  }

  /**
   * Where `next`'s search stands, measured from the state it began in:
   * the kernels `ks`, side lists `sides0`, observed triangle `input0` and
   * position `pos0` (meaningful when `begun0`). The kernels `cur` still
   * queued are a suffix of `ks`, the side lists `s` and triangle `inp`
   * those of the last one taken, and `(a, b, c)` the current combination
   * when `found`. Nothing passed over closes: not the rest of the first
   * kernel, not the kernels used up, and not the current kernel from `lo` on.
   */
  ghost predicate SearchState(ks: seq<Kernel>, sides0: SideMatches, input0: StarTriangle<nat>,
                              pos0: int, begun0: bool, lo: int, found: bool,
                              cur: seq<Kernel>, inp: StarTriangle<nat>, s: SideMatches, a: int, b: nat, c: nat)
  {
    |cur| <= |ks| && cur == ks[|ks| - |cur|..] &&
    (!found ==> cur == []) &&
    (found ==> InRange(a, b, c, |s.a|, |s.b|, |s.c|)) &&
    (|cur| == |ks| ==> s == sides0 && inp == input0) &&
    (|cur| < |ks| ==> s == ks[|ks| - |cur| - 1].sides && inp == ks[|ks| - |cur| - 1].input && lo == -1) &&
    (|cur| == |ks| && begun0 ==> lo == pos0) &&
    (|cur| < |ks| && begun0 ==> NoneClose(sides0, pos0, Total(sides0))) &&
    Exhausted(ks, |ks| - |cur| - 1) &&
    (found ==> NoneClose(s, lo, Rank(a, b, c, |s.a|, |s.b|))) &&
    (!found ==> NoneClose(s, lo, Total(s)))
  }

  /**
   * Passing over the current combination keeps the search state: whatever
   * the step did (move one on in the kernel, use kernels up), the kernels
   * left are still a suffix, and nothing passed over closes.
   */
  lemma SearchStep(ks: seq<Kernel>, sides0: SideMatches, input0: StarTriangle<nat>, pos0: int, begun0: bool,
                   lo: int, cur: seq<Kernel>, inp: StarTriangle<nat>, s: SideMatches, a: int, b: nat, c: nat,
                   lo': int, found': bool, cur': seq<Kernel>, inp': StarTriangle<nat>, s': SideMatches,
                   a': int, b': nat, c': nat)
    requires SearchState(ks, sides0, input0, pos0, begun0, lo, true, cur, inp, s, a, b, c)
    requires |cur'| <= |cur| && cur' == cur[|cur| - |cur'|..]
    requires found' ==> InRange(a', b', c', |s'.a|, |s'.b|, |s'.c|)
    requires !found' ==> cur' == []
    requires |cur'| == |cur| ==> s' == s && inp' == inp && lo' == lo
    requires |cur'| < |cur| ==>
      s' == cur[|cur| - |cur'| - 1].sides && inp' == cur[|cur| - |cur'| - 1].input && lo' == -1 &&
      NoneClose(s, lo, Total(s))
    requires forall i :: 0 <= i < |cur| - |cur'| - 1 ==> NoneClose(cur[i].sides, -1, Total(cur[i].sides))
    requires found' ==> NoneClose(s', lo', Rank(a', b', c', |s'.a|, |s'.b|))
    requires !found' ==> NoneClose(s', lo', Total(s'))
    ensures SearchState(ks, sides0, input0, pos0, begun0, lo', found', cur', inp', s', a', b', c')
  {
    ExhaustedJoin(ks, |ks| - |cur|, |cur| - |cur'|, s);
    assert cur' == ks[|ks| - |cur'|..];
    if |cur'| < |cur| {
      assert cur[|cur| - |cur'| - 1] == ks[|ks| - |cur'| - 1];
    }
  }

  class StarTriangleIterator {
    /** The observed triangle the side lists were searched for. */
    var input: StarTriangle<nat>
    /** The database matches for each side of `input`. */
    var pairA: seq<SearchResult>
    var pairB: seq<SearchResult>
    var pairC: seq<SearchResult>
    /** The database matches between each star of the expected triangle and the pilot. */
    var pairPA: seq<SearchResult>
    var pairPB: seq<SearchResult>
    var pairPC: seq<SearchResult>
    /** The observed pilot star; -1 before the first. */
    var indexP: int
    /** The current combination of side matches; `indexA` is -1 before the first. */
    var indexA: int
    var indexB: nat
    var indexC: nat
    /** The current combination of pilot matches; `indexPA` is -1 before the first. */
    var indexPA: int
    var indexPB: nat
    var indexPC: nat
    /** The triangle `next` last found. */
    var expectedTriangle: Option<Match<StarTriangle<nat>>>
    var angleTolerance: real
    /** What the kernel and database iterators would prepare next, in order. */
    var kernels: seq<Kernel>

    ghost predicate Valid()
      reads this
    {
      -1 <= indexP && -1 <= indexA && -1 <= indexPA
    }

    /** The current side lists. */
    function Sides(): SideMatches
      reads this
    {
      SideMatches(pairA, pairB, pairC)
    }

    /** The side combination is a combination or at its start. */
    ghost predicate Begun()
      reads this
    {
      Started(indexA, indexB, indexC, |pairA|, |pairB|, |pairC|)
    }

    /** The rank of the side combination in the order `step` walks. */
    ghost function Position(): int
      reads this
    {
      Rank(indexA, indexB, indexC, |pairA|, |pairB|)
    }

    /** Where `next`'s search stands, as `SearchState` over this iterator's fields. */
    ghost predicate Searching(ks: seq<Kernel>, sides0: SideMatches, input0: StarTriangle<nat>,
                              pos0: int, begun0: bool, lo: int, found: bool)
      reads this
    {
      SearchState(ks, sides0, input0, pos0, begun0, lo, found, kernels, input, Sides(), indexA, indexB, indexC)
    }

    /**
     * `begin`: empty every match list, put both combinations at their start
     * `(-1, 0, 0)`, the pilot at -1 and forget the expected triangle.
     */
    method Begin(tolerance: real, prepared: seq<Kernel>)
      modifies this
      ensures Valid()
      ensures pairA == [] && pairB == [] && pairC == [] && pairPA == [] && pairPB == [] && pairPC == []
      ensures indexP == -1 && indexA == -1 && indexB == 0 && indexC == 0
      ensures indexPA == -1 && indexPB == 0 && indexPC == 0
      ensures input == StarTriangle(0, 0, 0) && expectedTriangle.None?
      ensures angleTolerance == tolerance && kernels == prepared
    {
      kernels := prepared;
      input := StarTriangle(0, 0, 0);
      expectedTriangle := None;
      angleTolerance := tolerance;
      ResetSides();
      ResetPilot();
    }

    /** The side lists emptied and the side combination at its start. */
    method ResetSides()
      modifies this`pairA, this`pairB, this`pairC, this`indexA, this`indexB, this`indexC
      ensures pairA == [] && pairB == [] && pairC == []
      ensures indexA == -1 && indexB == 0 && indexC == 0
    {
      pairA, pairB, pairC := [], [], [];
      indexA, indexB, indexC := -1, 0, 0;
    }

    /** The pilot lists emptied, the pilot combination at its start and the pilot at -1. */
    method ResetPilot()
      modifies this`pairPA, this`pairPB, this`pairPC, this`indexP, this`indexPA, this`indexPB, this`indexPC
      ensures pairPA == [] && pairPB == [] && pairPC == []
      ensures indexP == -1 && indexPA == -1 && indexPB == 0 && indexPC == 0
    {
      pairPA, pairPB, pairPC := [], [], [];
      indexP := -1;
      indexPA, indexPB, indexPC := -1, 0, 0;
    }

    /**
     * `prep_new_kernel`: take the next observed triangle and its side
     * matches, and put the side combination back at its start; `false`
     * when there is nothing left to prepare.
     */
    method PrepNewKernel() returns (ok: bool)
      modifies this`kernels, this`input, this`pairA, this`pairB, this`pairC, this`indexA, this`indexB, this`indexC
      ensures ok <==> old(kernels) != []
      ensures !ok ==> (kernels == old(kernels) && input == old(input) && indexA == old(indexA) &&
                       indexB == old(indexB) && indexC == old(indexC) &&
                       pairA == old(pairA) && pairB == old(pairB) && pairC == old(pairC))
      ensures ok ==> (kernels == old(kernels)[1..] && input == old(kernels)[0].input &&
                      pairA == old(kernels)[0].sides.a && pairB == old(kernels)[0].sides.b &&
                      pairC == old(kernels)[0].sides.c && indexA == -1 && indexB == 0 && indexC == 0)
    {
      if kernels == [] {
        return false;
      }
      var k := kernels[0];
      kernels := kernels[1..];
      input := k.input;
      pairA, pairB, pairC := k.sides.a, k.sides.b, k.sides.c;
      indexA, indexB, indexC := -1, 0, 0;
      return true;
    }

    /**
     * Steps the side combination, preparing new kernels while the current
     * one is used up. `false` when every kernel is used up. Every kernel it
     * prepares and passes over has no combination at all.
     */
    method Advance() returns (found: bool)
      requires Valid()
      modifies this`kernels, this`input, this`pairA, this`pairB, this`pairC, this`indexA, this`indexB, this`indexC
      ensures Valid()
      ensures |kernels| <= old(|kernels|) && kernels == old(kernels)[old(|kernels|) - |kernels|..]
      ensures found ==> InRange(indexA, indexB, indexC, |pairA|, |pairB|, |pairC|)
      ensures !found ==> kernels == []
      ensures |kernels| == old(|kernels|) ==> Sides() == old(Sides()) && input == old(input)
      ensures |kernels| < old(|kernels|) ==>
        Sides() == old(kernels)[old(|kernels|) - |kernels| - 1].sides &&
        input == old(kernels)[old(|kernels|) - |kernels| - 1].input
      ensures found && |kernels| == old(|kernels|) && old(Begun()) ==> Position() == old(Position()) + 1
      ensures found && |kernels| < old(|kernels|) ==> Position() == 0
      ensures (!found || |kernels| < old(|kernels|)) && old(Begun()) ==> Total(old(Sides())) <= old(Position()) + 1
      ensures forall i :: 0 <= i < old(|kernels|) - |kernels| - (if found then 1 else 0) ==>
        Total(old(kernels)[i].sides) == 0
    {
      var more;
      more, indexA, indexB, indexC := Step(indexA, indexB, indexC, |pairA|, |pairB|, |pairC|);
      if more {
        return true;
      }
      found := NextKernel();
    }

    /**
     * The rest of `advance` once the current kernel is used up: prepares
     * new kernels until one has a combination, and puts the side
     * combination on its first. `false` when every kernel is used up.
     */
    method NextKernel() returns (found: bool)
      requires Valid()
      modifies this`kernels, this`input, this`pairA, this`pairB, this`pairC, this`indexA, this`indexB, this`indexC
      ensures Valid()
      ensures |kernels| <= old(|kernels|) && kernels == old(kernels)[old(|kernels|) - |kernels|..]
      ensures found ==> InRange(indexA, indexB, indexC, |pairA|, |pairB|, |pairC|) && |kernels| < old(|kernels|)
      ensures found ==> Position() == 0
      ensures !found ==> kernels == []
      ensures |kernels| == old(|kernels|) ==> Sides() == old(Sides()) && input == old(input)
      ensures |kernels| < old(|kernels|) ==>
        Sides() == old(kernels)[old(|kernels|) - |kernels| - 1].sides &&
        input == old(kernels)[old(|kernels|) - |kernels| - 1].input
      ensures forall i :: 0 <= i < old(|kernels|) - |kernels| - (if found then 1 else 0) ==>
        Total(old(kernels)[i].sides) == 0
    {
      var more := false;
      while !more
        invariant Valid()
        invariant |kernels| <= old(|kernels|) && kernels == old(kernels)[old(|kernels|) - |kernels|..]
        invariant more ==> InRange(indexA, indexB, indexC, |pairA|, |pairB|, |pairC|) && |kernels| < old(|kernels|)
        invariant more ==> Position() == 0
        invariant |kernels| == old(|kernels|) ==> Sides() == old(Sides()) && input == old(input)
        invariant |kernels| < old(|kernels|) ==>
          Sides() == old(kernels)[old(|kernels|) - |kernels| - 1].sides &&
          input == old(kernels)[old(|kernels|) - |kernels| - 1].input
        invariant !more && |kernels| < old(|kernels|) ==> Total(Sides()) == 0
        invariant forall i :: 0 <= i < old(|kernels|) - |kernels| - 1 ==> Total(old(kernels)[i].sides) == 0
        decreases |kernels|, !more
      {
        var prepared := PrepNewKernel();
        if !prepared {
          return false;
        }
        more, indexA, indexB, indexC := Step(indexA, indexB, indexC, |pairA|, |pairB|, |pairC|);
        TotalNonNegative(Sides());
      }
      return true;
    }

    /**
     * The step `next` takes past a combination that does not close, given
     * that none from `lo` on before it closes either: what has been passed
     * over still does not close, counting from `lo'`.
     */
    method PassOver(ghost lo: int) returns (found: bool, ghost lo': int)
      requires Valid() && InRange(indexA, indexB, indexC, |pairA|, |pairB|, |pairC|)
      requires NoneClose(Sides(), lo, Position())
      requires ConstructTriangle(pairA[indexA].result, pairB[indexB].result, pairC[indexC].result).None?
      modifies this`kernels, this`input, this`pairA, this`pairB, this`pairC, this`indexA, this`indexB, this`indexC
      ensures Valid()
      ensures |kernels| <= old(|kernels|) && kernels == old(kernels)[old(|kernels|) - |kernels|..]
      ensures found ==> InRange(indexA, indexB, indexC, |pairA|, |pairB|, |pairC|)
      ensures !found ==> kernels == []
      ensures |kernels| == old(|kernels|) ==> Sides() == old(Sides()) && input == old(input) && lo' == lo
      ensures found && |kernels| == old(|kernels|) ==> Position() == old(Position()) + 1
      ensures |kernels| < old(|kernels|) ==>
        Sides() == old(kernels)[old(|kernels|) - |kernels| - 1].sides &&
        input == old(kernels)[old(|kernels|) - |kernels| - 1].input && lo' == -1 &&
        NoneClose(old(Sides()), lo, Total(old(Sides())))
      ensures forall i :: 0 <= i < old(|kernels|) - |kernels| - 1 ==>
        NoneClose(old(kernels)[i].sides, -1, Total(old(kernels)[i].sides))
      ensures found ==> NoneClose(Sides(), lo', Position())
      ensures !found ==> NoneClose(Sides(), lo', Total(Sides()))
    {
      NoneCloseStep(Sides(), lo, indexA, indexB, indexC);
      found := Advance();
      lo' := if |kernels| < old(|kernels|) then -1 else lo;
    }

    /**
     * One round of `next`'s search past a combination that does not close:
     * the search state is kept, and either a kernel is used up or the
     * combination moves one on.
     */
    method Continue(ghost ks: seq<Kernel>, ghost sides0: SideMatches, ghost input0: StarTriangle<nat>,
                    ghost pos0: int, ghost begun0: bool, ghost lo: int) returns (found: bool, ghost lo': int)
      requires Valid() && Searching(ks, sides0, input0, pos0, begun0, lo, true)
      requires ConstructTriangle(pairA[indexA].result, pairB[indexB].result, pairC[indexC].result).None?
      modifies this`kernels, this`input, this`pairA, this`pairB, this`pairC, this`indexA, this`indexB, this`indexC
      ensures Valid() && Searching(ks, sides0, input0, pos0, begun0, lo', found)
      ensures |kernels| <= old(|kernels|)
      ensures |kernels| < old(|kernels|) || !found ||
        Remaining(indexA, indexB, indexC, |pairA|, |pairB|, |pairC|) <
        old(Remaining(indexA, indexB, indexC, |pairA|, |pairB|, |pairC|))
    {
      ghost var before, beforeInput, last, a, b, c := kernels, input, Sides(), indexA, indexB, indexC;
      found, lo' := PassOver(lo);
      SearchStep(ks, sides0, input0, pos0, begun0, lo, before, beforeInput, last, a, b, c,
                 lo', found, kernels, input, Sides(), indexA, indexB, indexC);
      if found && |kernels| == |before| {
        RemainingShrinks(a, b, c, indexA, indexB, indexC, |pairA|, |pairB|, |pairC|);
      }
    }

    /**
     * The first step of `next`: the combination after the current one, and
     * where the stretch that does not close starts.
     */
    method Start() returns (found: bool, ghost lo: int)
      requires Valid()
      modifies this`kernels, this`input, this`pairA, this`pairB, this`pairC, this`indexA, this`indexB, this`indexC
      ensures Valid()
      ensures |kernels| <= old(|kernels|) && kernels == old(kernels)[old(|kernels|) - |kernels|..]
      ensures found ==> InRange(indexA, indexB, indexC, |pairA|, |pairB|, |pairC|)
      ensures !found ==> kernels == []
      ensures |kernels| == old(|kernels|) ==> Sides() == old(Sides()) && input == old(input)
      ensures |kernels| < old(|kernels|) ==>
        Sides() == old(kernels)[old(|kernels|) - |kernels| - 1].sides &&
        input == old(kernels)[old(|kernels|) - |kernels| - 1].input && lo == -1
      ensures |kernels| == old(|kernels|) && old(Begun()) ==> lo == old(Position())
      ensures |kernels| < old(|kernels|) && old(Begun()) ==>
        NoneClose(old(Sides()), old(Position()), Total(old(Sides())))
      ensures forall i :: 0 <= i < old(|kernels|) - |kernels| - 1 ==>
        NoneClose(old(kernels)[i].sides, -1, Total(old(kernels)[i].sides))
      ensures found ==> NoneClose(Sides(), lo, Position())
      ensures !found ==> NoneClose(Sides(), lo, Total(Sides()))
    {
      found := Advance();
      lo := if |kernels| < old(|kernels|) then -1
        else if old(Begun()) then old(Position())
        else if found then Position() - 1 else Total(Sides());
    }

    /**
     * The search `next` makes: the first combination of side matches, after
     * the current one, that closes into a triangle, moving on to new kernels
     * as each is used up; `None` once every kernel is used up. Every
     * combination it passes over (the rest of the kernel it starts in, every
     * kernel it prepares and leaves, and the combinations of the last kernel
     * before the one it returns) does not close.
     */
    method Search() returns (tries: Option<Match<StarTriangle<nat>>>)
      requires Valid()
      modifies this`kernels, this`input, this`pairA, this`pairB, this`pairC, this`indexA, this`indexB, this`indexC
      ensures Valid()
      ensures |kernels| <= old(|kernels|) && kernels == old(kernels)[old(|kernels|) - |kernels|..]
      ensures tries.None? ==> kernels == []
      ensures tries.Some? ==> InRange(indexA, indexB, indexC, |pairA|, |pairB|, |pairC|)
      ensures tries.Some? ==>
        ConstructTriangle(pairA[indexA].result, pairB[indexB].result, pairC[indexC].result).Some? &&
        tries.value == Match(input,
          ConstructTriangle(pairA[indexA].result, pairB[indexB].result, pairC[indexC].result).value,
          pairA[indexA].error + pairB[indexB].error + pairC[indexC].error)
      ensures |kernels| == old(|kernels|) ==> Sides() == old(Sides()) && input == old(input)
      ensures |kernels| < old(|kernels|) ==>
        Sides() == old(kernels)[old(|kernels|) - |kernels| - 1].sides &&
        input == old(kernels)[old(|kernels|) - |kernels| - 1].input
      ensures |kernels| < old(|kernels|) && old(Begun()) ==>
        NoneClose(old(Sides()), old(Position()), Total(old(Sides())))
      ensures forall i :: 0 <= i < old(|kernels|) - |kernels| - 1 ==>
        NoneClose(old(kernels)[i].sides, -1, Total(old(kernels)[i].sides))
      ensures tries.Some? && |kernels| < old(|kernels|) ==> NoneClose(Sides(), -1, Position())
      ensures tries.Some? && |kernels| == old(|kernels|) && old(Begun()) ==> NoneClose(Sides(), old(Position()), Position())
      ensures tries.None? && |kernels| < old(|kernels|) ==> NoneClose(Sides(), -1, Total(Sides()))
      ensures tries.None? && |kernels| == old(|kernels|) && old(Begun()) ==>
        NoneClose(Sides(), old(Position()), Total(Sides()))
    {
      tries := None;
      var found, lo := Start();
      while found
        invariant Valid() && tries.None?
        invariant Searching(old(kernels), old(Sides()), old(input), old(Position()), old(Begun()), lo, found)
        decreases |kernels|, if found then Remaining(indexA, indexB, indexC, |pairA|, |pairB|, |pairC|) else 0
      {
        RemainingPositive(indexA, indexB, indexC, |pairA|, |pairB|, |pairC|);
        var a := pairA[indexA];
        var b := pairB[indexB];
        var c := pairC[indexC];
        var triangle := ConstructTriangle(a.result, b.result, c.result);
        if triangle.Some? {
          tries := Some(Match(input, triangle.value, a.error + b.error + c.error));
          break;
        }
        found, lo := Continue(old(kernels), old(Sides()), old(input), old(Position()), old(Begun()), lo);
      }
    }

    /**
     * `next`: the first combination of side matches, after the current one,
     * that closes into a triangle, as `Search` finds it (every combination
     * passed over does not close). Resets the pilot and records the result
     * as the expected triangle.
     */
    method Next() returns (tries: Option<Match<StarTriangle<nat>>>)
      requires Valid()
      modifies this
      ensures Valid()
      ensures indexP == -1 && expectedTriangle == tries
      ensures |kernels| <= old(|kernels|) && kernels == old(kernels)[old(|kernels|) - |kernels|..]
      ensures tries.None? ==> kernels == []
      ensures tries.Some? ==> InRange(indexA, indexB, indexC, |pairA|, |pairB|, |pairC|)
      ensures tries.Some? ==>
        ConstructTriangle(pairA[indexA].result, pairB[indexB].result, pairC[indexC].result).Some? &&
        tries.value == Match(input,
          ConstructTriangle(pairA[indexA].result, pairB[indexB].result, pairC[indexC].result).value,
          pairA[indexA].error + pairB[indexB].error + pairC[indexC].error)
      ensures |kernels| == old(|kernels|) ==> Sides() == old(Sides()) && input == old(input)
      ensures |kernels| < old(|kernels|) ==>
        Sides() == old(kernels)[old(|kernels|) - |kernels| - 1].sides &&
        input == old(kernels)[old(|kernels|) - |kernels| - 1].input
      ensures |kernels| < old(|kernels|) && old(Begun()) ==>
        NoneClose(old(Sides()), old(Position()), Total(old(Sides())))
      ensures forall i :: 0 <= i < old(|kernels|) - |kernels| - 1 ==>
        NoneClose(old(kernels)[i].sides, -1, Total(old(kernels)[i].sides))
      ensures tries.Some? && |kernels| < old(|kernels|) ==> NoneClose(Sides(), -1, Position())
      ensures tries.Some? && |kernels| == old(|kernels|) && old(Begun()) ==> NoneClose(Sides(), old(Position()), Position())
      ensures tries.None? && |kernels| < old(|kernels|) ==> NoneClose(Sides(), -1, Total(Sides()))
      ensures tries.None? && |kernels| == old(|kernels|) && old(Begun()) ==>
        NoneClose(Sides(), old(Position()), Total(Sides()))
    {
      indexP := -1;
      tries := Search();
      expectedTriangle := tries;
    }

    /**
     * `prep_new_pilot`: move the pilot to the next observed star that is
     * not one of the expected triangle's inputs, and fetch its matches
     * with each of them through `lookup`. `false` without an expected
     * triangle or once the pilot is past the last of `starsSize` stars.
     */
    method PrepNewPilot(starsSize: nat, lookup: nat -> SideMatches) returns (ok: bool)
      requires Valid()
      modifies this`indexP, this`pairPA, this`pairPB, this`pairPC, this`indexPA, this`indexPB, this`indexPC
      ensures Valid()
      ensures expectedTriangle.None? ==> !ok && indexP == old(indexP) && indexPA == old(indexPA)
      ensures expectedTriangle.Some? ==>
        var t := expectedTriangle.value.input;
        old(indexP) < indexP && !Has3(t, indexP as nat) &&
        (forall p: nat :: old(indexP) < p < indexP ==> Has3(t, p)) &&
        (ok <==> indexP < starsSize)
      ensures ok ==> (0 <= indexP && indexPA == -1 && indexPB == 0 && indexPC == 0 &&
                      pairPA == lookup(indexP as nat).a && pairPB == lookup(indexP as nat).b &&
                      pairPC == lookup(indexP as nat).c)
      ensures !ok ==> (indexPA == old(indexPA) && indexPB == old(indexPB) && indexPC == old(indexPC) &&
                       pairPA == old(pairPA) && pairPB == old(pairPB) && pairPC == old(pairPC))
    {
      if expectedTriangle.None? {
        return false;
      }
      var t := expectedTriangle.value.input;
      var pilot: nat := indexP + 1;
      while pilot == t.0 || pilot == t.1 || pilot == t.2
        invariant indexP < pilot
        invariant forall p: nat :: indexP < p < pilot ==> Has3(t, p)
        decreases Above(t, pilot)
      {
        pilot := pilot + 1;
      }
      indexP := pilot;
      if starsSize <= pilot {
        return false;
      }
      var sides := lookup(pilot);
      pairPA, pairPB, pairPC := sides.a, sides.b, sides.c;
      indexPA, indexPB, indexPC := -1, 0, 0;
      return true;
    }
  }
}
