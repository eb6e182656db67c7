/**
 * The `List` operations on a growable vector: the capacity is the largest
 * `usize`, so the list is never full and `slot` always places its element.
 */
module VecLists {
  import opened Errors
  import opened Sorting

  class VecList<T> {
    var items: seq<T>

    constructor ()
      ensures items == []
    {
      items := [];
    }

    function Capacity(): (n: nat)
      ensures n == USIZE_MAX
    {
      USIZE_MAX
    }

    function Size(): (n: nat)
      reads this
      ensures n == |items|
    {
      |items|
    }

    /** A vector never reports itself full. */
    function IsFull(): (full: bool)
      ensures !full
    {
      false
    }

    function IsEmpty(): (empty: bool)
      reads this
      ensures empty <==> items == []
    {
      |items| == 0
    }

    /** Indexing past the end panics in the source, so it is excluded here. */
    function Get(index: nat): (v: T)
      reads this
      requires index < |items|
      ensures items[index := v] == items
    {
      items[index]
    }

    method Set(index: nat, value: T) returns (r: Result<()>)
      modifies this
      ensures r == if index < old(|items|) then Ok(()) else Err(OutOfBounds)
      ensures items == if r.Ok? then old(items)[index := value] else old(items)
    {
      if index < |items| {
        items := items[index := value];
        return Ok(());
      }
      return Err(OutOfBounds);
    }

    method PushBack(value: T) returns (r: Result<()>)
      modifies this
      ensures r == if old(|items|) < USIZE_MAX then Ok(()) else Err(InvalidSize)
      ensures items == if r.Ok? then old(items) + [value] else old(items)
    {
      if |items| < Capacity() {
        items := items + [value];
        return Ok(());
      }
      return Err(InvalidSize);
    }

    method PopBack() returns (r: Result<T>)
      modifies this
      ensures old(items) == [] ==> r == Err(InvalidSize) && items == []
      ensures old(items) != [] ==> r == Ok(old(items)[|old(items)| - 1]) && items == old(items)[..|old(items)| - 1]
    {
      if |items| == 0 {
        return Err(InvalidSize);
      }
      var last := items[|items| - 1];
      items := items[..|items| - 1];
      return Ok(last);
    }

    method Clear()
      modifies this
      ensures items == []
    {
      items := [];
    }

    /** The same insertion sort as the array-backed list, through `get` and `set`. */
    method SortOrder(inOrder: (T, T) -> bool)
      modifies this
      ensures items == InsertionSort(old(items), inOrder)
    {
      ghost var s := items;
      var ii := 0;
      while ii < |items|
        invariant 0 <= ii <= |items| == |s|
        invariant items[..ii] == InsertionSort(s[..ii], inOrder)
        invariant items[ii..] == s[ii..]
      {
        ghost var before := items;
        ShiftIn(ii, inOrder);
        assert before[..ii] == InsertionSort(s[..ii], inOrder);
        assert before[ii] == s[ii] by { assert before[ii..][0] == before[ii]; }
        assert s[..ii + 1][..ii] == s[..ii];
        assert items[ii + 1..] == s[ii + 1..];
        ii := ii + 1;
      }
      assert s[..ii] == s;
    }

    /** One pass of `sort_order`: element `ii` moves left past every element it belongs before. */
    method ShiftIn(ii: nat, inOrder: (T, T) -> bool)
      requires ii < |items|
      modifies this
      ensures |items| == old(|items|)
      ensures items[..ii + 1] == InsertBack(old(items[..ii]), old(items[ii]), inOrder)
      ensures items[ii + 1..] == old(items[ii + 1..])
    {
      var a := items;
      ghost var p := a[..ii];
      ghost var tail := a[ii + 1..];
      var jj := ii;
      var temp := a[jj];
      ghost var hole := temp;
      assert p[..jj] == p && p[jj..] == [];
      assert a == p[..jj] + [hole] + p[jj..] + tail;
      while jj > 0 && inOrder(temp, a[jj - 1])
        invariant 0 <= jj <= ii
        invariant a == p[..jj] + [hole] + p[jj..] + tail
        invariant InsertBack(p, temp, inOrder) == InsertBack(p[..jj], temp, inOrder) + p[jj..]
      {
        ShiftedView(p, jj, hole, tail);
        InsertBackShift(p, jj, temp, inOrder);
        a := a[jj := a[jj - 1]];
        hole := p[jj - 1];
        jj := jj - 1;
      }
      InsertBackStop(p, jj, temp, inOrder);
      PlacedView(p, jj, hole, temp, tail);
      a := a[jj := temp];
      items := a;
    }

    /**
     * Inserts `x` before the first element it belongs before, or at the back.
     * The vector must have room for one more element: the source panics
     * otherwise.
     */
    method Slot(x: T, inOrder: (T, T) -> bool) returns (placed: bool)
      requires |items| < USIZE_MAX
      modifies this
      ensures placed
      ensures items == Slotted(old(items), x, inOrder)
    {
      ghost var s := items;
      var ii := 0;
      while ii < |items|
        invariant ii <= |items| && items == s
        invariant forall i :: 0 <= i < ii ==> !inOrder(x, s[i])
      {
        if inOrder(x, items[ii]) {
          assert FirstAfter(s, x, inOrder) == ii;
          ghost var slotted := s[..ii] + [x] + s[ii..];
          var toInsert := x;
          var jj := ii;
          while jj < |items|
            invariant ii <= jj <= |items| == |s|
            invariant forall k :: 0 <= k < jj ==> items[k] == slotted[k]
            invariant forall k :: jj <= k < |items| ==> items[k] == s[k]
            invariant toInsert == slotted[jj]
          {
            var toMove := items[jj];
            items := items[jj := toInsert];
            toInsert := toMove;
            jj := jj + 1;
          }
          items := items + [toInsert];
          assert items == slotted;
          return true;
        }
        ii := ii + 1;
      }
      assert s[..|s|] == s && s[|s|..] == [];
      items := items + [x];
      return true;
    }
  }
}
