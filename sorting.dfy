/**
 * Specification of the ordering operations shared by the list types:
 * the insertion sort run by `sort_order` and the sorted insertion run by
 * `slot`. Both lists are ordered by a caller-supplied comparator
 * `inOrder(a, b)`, read as "a belongs strictly before b".
 */
module Sorting {

  /**
   * The comparator behaves as a strict weak order: no two elements belong
   * before each other, "belongs before" chains, and so does "does not
   * belong before". `a < b` and `b < a` on numbers are such orders.
   */
  ghost predicate StrictWeakOrder<T(!new)>(inOrder: (T, T) -> bool)
  {
    (forall a, b :: inOrder(a, b) ==> !inOrder(b, a)) &&
    (forall a, b, c :: inOrder(a, b) && inOrder(b, c) ==> inOrder(a, c)) &&
    (forall a, b, c :: !inOrder(a, b) && !inOrder(b, c) ==> !inOrder(a, c))
  }

  /** No element belongs strictly before an element that comes earlier in `s`. */
  ghost predicate Ordered<T>(s: seq<T>, inOrder: (T, T) -> bool)
  {
    forall i, j :: 0 <= i < j < |s| ==> !inOrder(s[j], s[i])
  }

  /**
   * One pass of the shift loop: `x` enters at the back of `s` and moves
   * towards the front while it belongs before its left neighbour.
   */
  function InsertBack<T>(s: seq<T>, x: T, inOrder: (T, T) -> bool): seq<T>
  {
    if |s| == 0 || !inOrder(x, s[|s| - 1]) then s + [x]
    else InsertBack(s[..|s| - 1], x, inOrder) + [s[|s| - 1]]
  }

  /** The whole insertion sort: every element is inserted from the back in turn. */
  function InsertionSort<T>(s: seq<T>, inOrder: (T, T) -> bool): seq<T>
  {
    if |s| == 0 then []
    else InsertBack(InsertionSort(s[..|s| - 1], inOrder), s[|s| - 1], inOrder)
  }

  /** Index of the first element `x` belongs before, or `|s|` when there is none. */
  function FirstAfter<T>(s: seq<T>, x: T, inOrder: (T, T) -> bool): (k: nat)
    ensures k <= |s|
    ensures forall i :: 0 <= i < k ==> !inOrder(x, s[i])
    ensures k < |s| ==> inOrder(x, s[k])
  {
    if |s| == 0 then 0
    else if inOrder(x, s[0]) then 0
    else 1 + FirstAfter(s[1..], x, inOrder)
  }

  /** `x` placed in front of the first element it belongs before. */
  function Slotted<T>(s: seq<T>, x: T, inOrder: (T, T) -> bool): seq<T>
  {
    var k := FirstAfter(s, x, inOrder);
    s[..k] + [x] + s[k..]
  }

  /** The element being inserted moves past `p[jj - 1]`. */
  lemma InsertBackShift<T>(p: seq<T>, jj: nat, temp: T, inOrder: (T, T) -> bool)
    requires 0 < jj <= |p| && inOrder(temp, p[jj - 1])
    ensures InsertBack(p[..jj], temp, inOrder) + p[jj..] == InsertBack(p[..jj - 1], temp, inOrder) + p[jj - 1..]
  {
    assert p[..jj][..jj - 1] == p[..jj - 1];
    assert p[jj - 1..] == [p[jj - 1]] + p[jj..];
  }

  /** The element being inserted stops in front of the first element it does not belong before. */
  lemma InsertBackStop<T>(p: seq<T>, jj: nat, temp: T, inOrder: (T, T) -> bool)
    requires jj <= |p| && (jj == 0 || !inOrder(temp, p[jj - 1]))
    ensures InsertBack(p[..jj], temp, inOrder) == p[..jj] + [temp]
  {
  }

  /**
   * The list during an insertion pass: `p` with a hole at `jj` and the
   * untouched `tail` after it. Moving `p[jj - 1]` into the hole moves the
   * hole one place left.
   */
  lemma ShiftedView<T>(p: seq<T>, jj: nat, hole: T, tail: seq<T>)
    requires 0 < jj <= |p|
    ensures var v := p[..jj] + [hole] + p[jj..] + tail;
      |v| == |p| + 1 + |tail| && v[jj - 1] == p[jj - 1] &&
      v[jj := p[jj - 1]] == p[..jj - 1] + [p[jj - 1]] + p[jj - 1..] + tail
  {
    var v := p[..jj] + [hole] + p[jj..] + tail;
    var w := p[..jj - 1] + [p[jj - 1]] + p[jj - 1..] + tail;
    assert |v| == |w|;
    forall k | 0 <= k < |v|
      ensures v[jj := p[jj - 1]][k] == w[k]
    {
      if k < jj - 1 {
      } else if k == jj - 1 || k == jj {
      } else if k <= |p| {
        assert v[k] == p[k - 1] && w[k] == p[jj - 1..][k - jj];
      } else {
        assert v[k] == tail[k - |p| - 1] && w[k] == tail[k - |p| - 1];
      }
    }
  }

  /** Filling the hole with `x` gives `p` with `x` inserted at `jj`, followed by the tail. */
  lemma PlacedView<T>(p: seq<T>, jj: nat, hole: T, x: T, tail: seq<T>)
    requires jj <= |p|
    ensures var v := (p[..jj] + [hole] + p[jj..] + tail)[jj := x];
      |v| == |p| + 1 + |tail| && v[..|p| + 1] == p[..jj] + [x] + p[jj..] && v[|p| + 1..] == tail
  {
    var v := (p[..jj] + [hole] + p[jj..] + tail)[jj := x];
    assert v == (p[..jj] + [x] + p[jj..]) + tail;
  }

  /** During an insertion sort: the first `ii` places hold `s[..ii]` sorted, and the rest of `s` waits behind them. */
  ghost predicate SortedUpTo<T>(a: seq<T>, s: seq<T>, ii: nat, inOrder: (T, T) -> bool)
  {
    ii <= |s| <= |a| && a[..ii] == InsertionSort(s[..ii], inOrder) && a[ii..|s|] == s[ii..]
  }

  /** One insertion pass moves the sorted prefix on by one element. */
  lemma SortStep<T>(s: seq<T>, ii: nat, before: seq<T>, after: seq<T>, inOrder: (T, T) -> bool)
    requires SortedUpTo(before, s, ii, inOrder) && ii < |s| && |after| == |before|
    requires after[..ii + 1] == InsertBack(before[..ii], before[ii], inOrder)
    requires after[ii + 1..] == before[ii + 1..]
    ensures SortedUpTo(after, s, ii + 1, inOrder)
  {
    var rest := before[ii..|s|];
    assert rest == s[ii..];
    assert before[ii] == rest[0] == s[ii];
    assert s[..ii + 1][..ii] == s[..ii];
    assert after[ii + 1..|s|] == after[ii + 1..][..|s| - ii - 1];
    assert before[ii + 1..|s|] == before[ii + 1..][..|s| - ii - 1];
    assert before[ii + 1..|s|] == rest[1..] == s[ii + 1..];
  }

  lemma {:induction false} InsertBackPermutes<T>(s: seq<T>, x: T, inOrder: (T, T) -> bool)
    ensures |InsertBack(s, x, inOrder)| == |s| + 1
    ensures multiset(InsertBack(s, x, inOrder)) == multiset(s) + multiset{x}
  {
    if |s| == 0 || !inOrder(x, s[|s| - 1]) {
    } else {
      var init := s[..|s| - 1];
      InsertBackPermutes(init, x, inOrder);
      assert s == init + [s[|s| - 1]];
    }
  }

  lemma {:induction false} InsertBackOrdered<T(!new)>(s: seq<T>, x: T, inOrder: (T, T) -> bool)
    requires StrictWeakOrder(inOrder)
    requires Ordered(s, inOrder)
    ensures Ordered(InsertBack(s, x, inOrder), inOrder)
  {
    if |s| == 0 {
    } else if !inOrder(x, s[|s| - 1]) {
      var r := s + [x];
      forall i, j | 0 <= i < j < |r| ensures !inOrder(r[j], r[i]) {
        if j == |s| && i < |s| - 1 {
          assert !inOrder(s[|s| - 1], s[i]);
        }
      }
    } else {
      var init := s[..|s| - 1];
      var last := s[|s| - 1];
      InsertBackOrdered(init, x, inOrder);
      InsertBackPermutes(init, x, inOrder);
      var front := InsertBack(init, x, inOrder);
      var r := front + [last];
      forall i, j | 0 <= i < j < |r| ensures !inOrder(r[j], r[i]) {
        if j == |front| {
          assert r[i] in multiset(front);
          assert r[i] in multiset(init) + multiset{x};
          if r[i] != x {
            var m :| 0 <= m < |init| && init[m] == r[i];
            assert !inOrder(s[|s| - 1], s[m]);
          }
        }
      }
    }
  }

  lemma {:induction false} InsertionSortPermutes<T>(s: seq<T>, inOrder: (T, T) -> bool)
    ensures |InsertionSort(s, inOrder)| == |s|
    ensures multiset(InsertionSort(s, inOrder)) == multiset(s)
  {
    if |s| > 0 {
      var init := s[..|s| - 1];
      var sorted := InsertionSort(init, inOrder);
      InsertionSortPermutes(init, inOrder);
      InsertBackPermutes(sorted, s[|s| - 1], inOrder);
      assert InsertionSort(s, inOrder) == InsertBack(sorted, s[|s| - 1], inOrder);
      assert multiset(s) == multiset(init) + multiset{s[|s| - 1]} by {
        assert s == init + [s[|s| - 1]];
      }
    }
  }

  /** `sort_order` leaves the list ordered by the comparator. */
  lemma {:induction false} InsertionSortOrdered<T(!new)>(s: seq<T>, inOrder: (T, T) -> bool)
    requires StrictWeakOrder(inOrder)
    ensures Ordered(InsertionSort(s, inOrder), inOrder)
  {
    if |s| > 0 {
      InsertionSortOrdered(s[..|s| - 1], inOrder);
      InsertBackOrdered(InsertionSort(s[..|s| - 1], inOrder), s[|s| - 1], inOrder);
    }
  }

  /** Slotting into an ordered list keeps it ordered and adds exactly `x`. */
  lemma SlottedOrdered<T(!new)>(s: seq<T>, x: T, inOrder: (T, T) -> bool)
    requires StrictWeakOrder(inOrder)
    requires Ordered(s, inOrder)
    ensures multiset(Slotted(s, x, inOrder)) == multiset(s) + multiset{x}
    ensures Ordered(Slotted(s, x, inOrder), inOrder)
  {
    var k := FirstAfter(s, x, inOrder);
    var r := Slotted(s, x, inOrder);
    assert s == s[..k] + s[k..];
    assert r == s[..k] + [x] + s[k..];
    forall i, j | 0 <= i < j < |r| ensures !inOrder(r[j], r[i]) {
      if i == k {
        SlottedBeforeRest(s, x, inOrder, j - 1);
      } else if j == k {
        assert r[i] == s[i];
      } else {
        SlottedOthers(s, x, inOrder, i, j);
      }
    }
  }

  /** Nothing after the slot belongs before `x`, which belongs before `s[k]`. */
  lemma SlottedBeforeRest<T(!new)>(s: seq<T>, x: T, inOrder: (T, T) -> bool, t: nat)
    requires StrictWeakOrder(inOrder) && Ordered(s, inOrder)
    requires FirstAfter(s, x, inOrder) <= t < |s|
    ensures !inOrder(s[t], x)
  {
    var k := FirstAfter(s, x, inOrder);
    assert inOrder(x, s[k]);
    if t > k {
      assert !inOrder(s[t], s[k]);
    }
  }

  /** Two elements of `s` keep their order around the slot of `x`. */
  lemma SlottedOthers<T>(s: seq<T>, x: T, inOrder: (T, T) -> bool, i: nat, j: nat)
    requires Ordered(s, inOrder)
    requires i < j < |s| + 1 && i != FirstAfter(s, x, inOrder) && j != FirstAfter(s, x, inOrder)
    ensures var r := Slotted(s, x, inOrder); !inOrder(r[j], r[i])
  {
    var i' := SlottedAt(s, x, inOrder, i);
    var j' := SlottedAt(s, x, inOrder, j);
  }

  /** Position `t` of the slotted sequence, other than the slot itself, holds `s[t']`. */
  lemma SlottedAt<T>(s: seq<T>, x: T, inOrder: (T, T) -> bool, t: nat) returns (t': nat)
    requires t < |s| + 1 && t != FirstAfter(s, x, inOrder)
    ensures t' == (if t < FirstAfter(s, x, inOrder) then t else t - 1)
    ensures t' < |s| && Slotted(s, x, inOrder)[t] == s[t']
  {
    var k := FirstAfter(s, x, inOrder);
    var front := s[..k] + [x];
    assert Slotted(s, x, inOrder) == front + s[k..];
    if t < k {
      t' := t;
      assert front[t] == s[..k][t];
    } else {
      t' := t - 1;
      assert (front + s[k..])[t] == s[k..][t - k - 1];
    }
  }

  /** Slotting adds nothing but `x`. */
  lemma SlottedElements<T>(s: seq<T>, x: T, inOrder: (T, T) -> bool)
    ensures |Slotted(s, x, inOrder)| == |s| + 1
    ensures forall e :: e in Slotted(s, x, inOrder) ==> e in s || e == x
  {
    var k := FirstAfter(s, x, inOrder);
    assert s == s[..k] + s[k..];
  }

  /** A prefix of an ordered sequence is ordered: a full list drops its last element. */
  lemma PrefixOrdered<T>(s: seq<T>, n: nat, inOrder: (T, T) -> bool)
    requires n <= |s|
    requires Ordered(s, inOrder)
    ensures Ordered(s[..n], inOrder)
  {
  }
}
