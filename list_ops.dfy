/**
 * The default operations every `List` gets: indexed `pop`, `find_match`
 * and `remove_diff`, here over the fixed-capacity `ArrayList`.
 */
module ListOps {
  import opened Errors
  import opened ArrayLists

  /** `s` without its element at `i`, the rest in their original order. */
  function Without<T>(s: seq<T>, i: nat): (r: seq<T>)
    requires i < |s|
    ensures |r| == |s| - 1
    ensures forall k :: 0 <= k < i ==> r[k] == s[k]
    ensures forall k :: i <= k < |r| ==> r[k] == s[k + 1]
  {
    s[..i] + s[i + 1..]
  }

  /** Whether `compare` relates `x` to some element of `other`, scanning from the back. */
  function AnyMatch<T>(x: T, other: seq<T>, compare: (T, T) -> bool): (found: bool)
    ensures found <==> exists j :: 0 <= j < |other| && compare(x, other[j])
  {
    if |other| == 0 then false
    else AnyMatch(x, other[..|other| - 1], compare) || compare(x, other[|other| - 1])
  }

  /** One copy of `x` for every element of `b` it matches. */
  function MatchRow<T>(x: T, b: seq<T>, compare: (T, T) -> bool): seq<T>
  {
    if |b| == 0 then []
    else MatchRow(x, b[..|b| - 1], compare) + (if compare(x, b[|b| - 1]) then [x] else [])
  }

  /** Every element of `a`, repeated once per match in `b`, in the order of `a`. */
  function AllMatches<T>(a: seq<T>, b: seq<T>, compare: (T, T) -> bool): seq<T>
  {
    if |a| == 0 then []
    else AllMatches(a[..|a| - 1], b, compare) + MatchRow(a[|a| - 1], b, compare)
  }

  /** The elements of `s` that match something in `other`, in their original order. */
  function Kept<T>(s: seq<T>, other: seq<T>, compare: (T, T) -> bool): seq<T>
  {
    if |s| == 0 then []
    else Kept(s[..|s| - 1], other, compare) + (if AnyMatch(s[|s| - 1], other, compare) then [s[|s| - 1]] else [])
  }

  /** `MatchRow` holds only `x`, as many times as `b` has matches for it. */
  lemma {:induction false} MatchRowCounts<T>(x: T, b: seq<T>, compare: (T, T) -> bool)
    ensures forall y :: y in MatchRow(x, b, compare) ==> y == x
    ensures |MatchRow(x, b, compare)| <= |b|
    ensures |MatchRow(x, b, compare)| > 0 <==> AnyMatch(x, b, compare)
  {
    if |b| > 0 {
      MatchRowCounts(x, b[..|b| - 1], compare);
    }
  }

  /** Every element kept by `remove_diff` comes from the list and matches `other`. */
  lemma {:induction false} KeptSound<T>(s: seq<T>, other: seq<T>, compare: (T, T) -> bool)
    ensures |Kept(s, other, compare)| <= |s|
    ensures forall y :: y in Kept(s, other, compare) ==> y in s && AnyMatch(y, other, compare)
    ensures forall y :: y in s && AnyMatch(y, other, compare) ==> y in Kept(s, other, compare)
  {
    if |s| > 0 {
      var init := s[..|s| - 1];
      KeptSound(init, other, compare);
      assert s == init + [s[|s| - 1]];
    }
  }

  /** `find_match` only ever copies elements of `a` that match something in `b`. */
  lemma {:induction false} AllMatchesSound<T>(a: seq<T>, b: seq<T>, compare: (T, T) -> bool)
    ensures forall y :: y in AllMatches(a, b, compare) ==> y in a && AnyMatch(y, b, compare)
  {
    if |a| > 0 {
      var init := a[..|a| - 1];
      AllMatchesSound(init, b, compare);
      MatchRowCounts(a[|a| - 1], b, compare);
      assert a == init + [a[|a| - 1]];
    }
  }

  /** At most one copy per pair of positions. */
  lemma {:induction false} AllMatchesBound<T>(a: seq<T>, b: seq<T>, compare: (T, T) -> bool)
    ensures |AllMatches(a, b, compare)| <= |a| * |b|
  {
    if |a| > 0 {
      AllMatchesBound(a[..|a| - 1], b, compare);
      MatchRowCounts(a[|a| - 1], b, compare);
      assert (|a| - 1) * |b| + |b| == |a| * |b|;
    }
  }

  /** The first `n` elements of `s`, or all of `s` when it is shorter. */
  function Truncate<T>(s: seq<T>, n: nat): (r: seq<T>)
    ensures |r| == if |s| < n then |s| else n
    ensures r == s[..|r|]
  {
    if |s| <= n then s else s[..n]
  }

  /** Appending to a truncated sequence and truncating again forgets the cut. */
  lemma TruncateAppend<T>(s: seq<T>, t: seq<T>, n: nat)
    ensures Truncate(Truncate(s, n) + t, n) == Truncate(s + t, n)
  {
    if |s| > n {
      assert (s[..n] + t)[..n] == s[..n];
      assert (s + t)[..n] == s[..n];
    }
  }

  /** Once `s` fills the capacity, appending more is cut off again. */
  lemma TruncateFull<T>(s: seq<T>, t: seq<T>, n: nat)
    requires n <= |s|
    ensures Truncate(s + t, n) == Truncate(s, n)
  {
    assert (s + t)[..n] == s[..n];
  }

  /**
   * Removes and returns element `index`, shifting the later elements left.
   * An empty list gives InvalidSize; an index past the end gives OutOfBounds.
   */
  method Pop<T>(list: ArrayList<T>, index: nat) returns (r: Result<T>)
    requires list.Valid()
    modifies list`end, list.data
    ensures list.Valid()
    ensures old(list.Contents()) == [] ==> r == Err(InvalidSize) && list.Contents() == old(list.Contents())
    ensures old(list.Contents()) != [] && old(|list.Contents()|) <= index ==>
      r == Err(OutOfBounds) && list.Contents() == old(list.Contents())
    ensures index < old(|list.Contents()|) ==>
      r == Ok(old(list.Contents())[index]) && list.Contents() == Without(old(list.Contents()), index)
  {
    if list.end == 0 {
      return Err(InvalidSize);
    }
    if index < list.end {
      ghost var s := list.data[..list.end];
      var value := list.data[index];
      var ii := index;
      while ii < list.end - 1
        invariant index <= ii < list.end && list.end == |s|
        invariant forall k :: 0 <= k < ii ==> list.data[k] == Without(s, index)[k]
        invariant forall k :: ii <= k < list.end ==> list.data[k] == s[k]
      {
        list.data[ii] := list.data[ii + 1];
        ii := ii + 1;
      }
      list.end := list.end - 1;
      assert list.data[..list.end] == Without(s, index);
      return Ok(value);
    }
    return Err(OutOfBounds);
  }

  /**
   * For every element of `a` and every element of `b` it matches, appends
   * that element of `a` to `out` while `out` has room.
   */
  method FindMatch<T>(a: ArrayList<T>, b: ArrayList<T>, compare: (T, T) -> bool, out: ArrayList<T>)
    returns (r: Result<()>)
    requires a.Valid() && b.Valid() && out.Valid()
    requires out.data != a.data && out.data != b.data
    modifies out`end, out.data
    ensures out.Valid() && r == Ok(())
    ensures out.Contents() == Truncate(old(out.Contents()) + AllMatches(a.Contents(), b.Contents(), compare), out.Capacity())
  {
    ghost var start := out.data[..out.end];
    ghost var sa := a.data[..a.end];
    ghost var sb := b.data[..b.end];
    assert a != out && b != out;
    var ii := 0;
    while ii < a.end
      invariant ii <= a.end && out.Valid()
      invariant a.data[..a.end] == sa && b.data[..b.end] == sb
      invariant out.data[..out.end] == Truncate(start + AllMatches(sa[..ii], sb, compare), out.data.Length)
    {
      MatchOne(a.data[ii], b, compare, out);
      AllMatchesStep(start, sa, sb, ii, compare, out.data.Length);
      ii := ii + 1;
    }
    assert sa[..ii] == sa;
    return Ok(());
  }

  /** One more row of `find_match`, appended to the truncated output. */
  lemma AllMatchesStep<T>(start: seq<T>, sa: seq<T>, sb: seq<T>, ii: nat, compare: (T, T) -> bool, n: nat)
    requires ii < |sa|
    ensures Truncate(Truncate(start + AllMatches(sa[..ii], sb, compare), n) + MatchRow(sa[ii], sb, compare), n) ==
      Truncate(start + AllMatches(sa[..ii + 1], sb, compare), n)
  {
    var acc := start + AllMatches(sa[..ii], sb, compare);
    var row := MatchRow(sa[ii], sb, compare);
    TruncateAppend(acc, row, n);
    assert sa[..ii + 1][..ii] == sa[..ii];
    assert acc + row == start + AllMatches(sa[..ii + 1], sb, compare);
  }

  /** The inner loop of `find_match`: `x` is appended once per match in `b`, while there is room. */
  method MatchOne<T>(x: T, b: ArrayList<T>, compare: (T, T) -> bool, out: ArrayList<T>)
    requires b.Valid() && out.Valid() && out.data != b.data
    modifies out`end, out.data
    ensures out.Valid()
    ensures out.Contents() == Truncate(old(out.Contents()) + MatchRow(x, b.Contents(), compare), out.Capacity())
  {
    ghost var o := out.Contents();
    ghost var sb := b.Contents();
    ghost var n := out.Capacity();
    var jj := 0;
    while jj < b.end
      invariant jj <= b.end && out.Valid() && out.Capacity() == n
      invariant b.Contents() == sb
      invariant out.Contents() == Truncate(o + MatchRow(x, sb[..jj], compare), n)
    {
      MatchRowStep(o, x, sb, jj, compare, n);
      if compare(x, b.data[jj]) {
        PushIfRoom(out, x);
      }
      jj := jj + 1;
    }
    assert sb[..jj] == sb;
  }

  /** One more element of `b` in the inner loop of `find_match`, under the capacity cut. */
  lemma MatchRowStep<T>(o: seq<T>, x: T, sb: seq<T>, jj: nat, compare: (T, T) -> bool, n: nat)
    requires jj < |sb|
    ensures compare(x, sb[jj]) ==>
      Truncate(Truncate(o + MatchRow(x, sb[..jj], compare), n) + [x], n) == Truncate(o + MatchRow(x, sb[..jj + 1], compare), n)
    ensures !compare(x, sb[jj]) ==> MatchRow(x, sb[..jj + 1], compare) == MatchRow(x, sb[..jj], compare)
  {
    var acc := o + MatchRow(x, sb[..jj], compare);
    assert sb[..jj + 1][..jj] == sb[..jj];
    TruncateAppend(acc, [x], n);
    assert acc + [x] == o + (MatchRow(x, sb[..jj], compare) + [x]);
  }

  /** Pushes `x` when `list` has room; a full list is left as it is. */
  method PushIfRoom<T>(list: ArrayList<T>, x: T)
    requires list.Valid()
    modifies list`end, list.data
    ensures list.Valid()
    ensures list.Contents() == Truncate(old(list.Contents()) + [x], list.Capacity())
  {
    if !list.IsFull() {
      var _ := list.PushBack(x);
    }
  }

  /** The inner loop of `remove_diff`: whether `x` matches some element of `other`. */
  method AnyMatchIn<T>(x: T, other: ArrayList<T>, compare: (T, T) -> bool) returns (keep: bool)
    requires other.Valid()
    ensures keep == AnyMatch(x, other.Contents(), compare)
  {
    ghost var so := other.data[..other.end];
    keep := false;
    var jj := 0;
    while jj < other.end
      invariant jj <= other.end
      invariant keep == AnyMatch(x, so[..jj], compare)
    {
      if compare(x, other.data[jj]) {
        keep := true;
      }
      assert so[..jj + 1][..jj] == so[..jj];
      jj := jj + 1;
    }
    assert so[..jj] == so;
  }

  /** Around position `|k|` of `k + rest`: what `Without` leaves and the element it takes. */
  lemma SplitAtFront<T>(k: seq<T>, rest: seq<T>)
    requires |rest| > 0
    ensures (k + rest)[|k|] == rest[0]
    ensures Without(k + rest, |k|) == k + rest[1..]
  {
    assert (k + rest)[..|k|] == k;
    assert (k + rest)[|k| + 1..] == rest[1..];
  }

  /**
   * One turn of `remove_diff` on the list `Kept(s[..done]) + s[done..]`:
   * the element at the cut is `s[done]`; keeping it or removing it gives
   * the list for `done + 1`.
   */
  lemma RemoveDiffStep<T>(s: seq<T>, done: nat, so: seq<T>, compare: (T, T) -> bool)
    requires done < |s|
    ensures var kept := Kept(s[..done], so, compare);
      |kept| < |kept + s[done..]| && (kept + s[done..])[|kept|] == s[done] &&
      (AnyMatch(s[done], so, compare) ==> Kept(s[..done + 1], so, compare) + s[done + 1..] == kept + s[done..]) &&
      (!AnyMatch(s[done], so, compare) ==>
        Kept(s[..done + 1], so, compare) + s[done + 1..] == Without(kept + s[done..], |kept|) &&
        |Kept(s[..done + 1], so, compare)| == |kept|)
  {
    var kept := Kept(s[..done], so, compare);
    SplitAtFront(kept, s[done..]);
    assert s[done..][0] == s[done] && s[done..][1..] == s[done + 1..];
    KeptStep(s, done, so, compare);
    assert kept + [s[done]] + s[done + 1..] == kept + s[done..];
  }

  /** `Kept` over one more element. */
  lemma KeptStep<T>(s: seq<T>, done: nat, other: seq<T>, compare: (T, T) -> bool)
    requires done < |s|
    ensures Kept(s[..done + 1], other, compare) ==
      Kept(s[..done], other, compare) + (if AnyMatch(s[done], other, compare) then [s[done]] else [])
  {
    assert s[..done + 1][..done] == s[..done];
  }

  /** Removes, in place, every element of `list` that matches nothing in `other`. */
  method RemoveDiff<T>(list: ArrayList<T>, other: ArrayList<T>, compare: (T, T) -> bool)
    requires list.Valid() && other.Valid()
    requires other.data != list.data
    modifies list`end, list.data
    ensures list.Valid()
    ensures list.Contents() == Kept(old(list.Contents()), other.Contents(), compare)
  {
    ghost var s := list.Contents();
    ghost var so := other.Contents();
    ghost var done := 0;
    var ii := 0;
    while ii < list.end
      invariant list.Valid() && done <= |s| && ii == |Kept(s[..done], so, compare)|
      invariant other.Contents() == so
      invariant list.Contents() == Kept(s[..done], so, compare) + s[done..]
      decreases |s| - done
    {
      ii := KeepOrDrop(list, ii, other, compare, s, done);
      done := done + 1;
    }
    assert s[..done] == s;
  }

  /**
   * One turn of the `remove_diff` loop: the element at `ii`, which is
   * `s[done]`, stays when it matches something in `other` and is popped
   * otherwise.
   */
  method KeepOrDrop<T>(list: ArrayList<T>, ii: nat, other: ArrayList<T>, compare: (T, T) -> bool,
                       ghost s: seq<T>, ghost done: nat)
    returns (next: nat)
    requires list.Valid() && other.Valid() && other.data != list.data
    requires done < |s| && ii == |Kept(s[..done], other.Contents(), compare)|
    requires list.Contents() == Kept(s[..done], other.Contents(), compare) + s[done..]
    modifies list`end, list.data
    ensures list.Valid() && next == |Kept(s[..done + 1], other.Contents(), compare)|
    ensures list.Contents() == Kept(s[..done + 1], other.Contents(), compare) + s[done + 1..]
  {
    ghost var so := other.Contents();
    RemoveDiffStep(s, done, so, compare);
    var keep := AnyMatchIn(list.data[ii], other, compare);
    if keep {
      next := ii + 1;
    } else {
      var popped := Pop(list, ii);
      next := ii;
    }
  }
}
