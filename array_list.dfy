/**
 * `ArrayList<T, N>`: a list of at most N elements kept in a fixed array.
 * The first `end` slots of the array hold the list; the rest are spare.
 */
module ArrayLists {
  import opened Errors
  import opened Sorting

  class ArrayList<T> {
    var data: array<T>
    var end: nat

    ghost predicate Valid()
      reads this
    {
      end <= data.Length
    }

    /** The elements currently in the list, front to back. */
    ghost function Contents(): seq<T>
      reads this, data
      requires Valid()
    {
      data[..end]
    }

    /** An empty list with room for `capacity` elements; `fill` occupies the spare slots. */
    constructor (capacity: nat, fill: T)
      ensures Valid() && fresh(data)
      ensures data.Length == capacity && Contents() == []
    {
      data := new T[capacity](_ => fill);
      end := 0;
    }

    /** The fixed number of elements the list can hold. */
    function Capacity(): (n: nat)
      reads this
      requires Valid()
      ensures n >= |Contents()|
    {
      data.Length
    }

    function Size(): (n: nat)
      reads this
      requires Valid()
      ensures n == |Contents()|
    {
      end
    }

    function IsFull(): (full: bool)
      reads this
      requires Valid()
      ensures full <==> |Contents()| == Capacity()
    {
      end == data.Length
    }

    function IsEmpty(): (empty: bool)
      reads this
      requires Valid()
      ensures empty <==> Contents() == []
    {
      end == 0
    }

    /** Reading past the end is a panic in the source, so it is excluded here. */
    function Get(index: nat): (v: T)
      reads this, data
      requires Valid() && index < |Contents()|
      ensures v == Contents()[index]
    {
      data[index]
    }

    method Set(index: nat, value: T) returns (r: Result<()>)
      requires Valid()
      modifies data
      ensures Valid()
      ensures r == if index < old(|Contents()|) then Ok(()) else Err(OutOfBounds)
      ensures Contents() == if r.Ok? then old(Contents())[index := value] else old(Contents())
    {
      if end <= index {
        return Err(OutOfBounds);
      }
      data[index] := value;
      return Ok(());
    }

    method PushBack(value: T) returns (r: Result<()>)
      requires Valid()
      modifies this`end, data
      ensures Valid()
      ensures r == if old(|Contents()|) < Capacity() then Ok(()) else Err(InvalidSize)
      ensures Contents() == if r.Ok? then old(Contents()) + [value] else old(Contents())
    {
      if data.Length <= end {
        return Err(InvalidSize);
      }
      data[end] := value;
      end := end + 1;
      return Ok(());
    }

    method PopBack() returns (r: Result<T>)
      requires Valid()
      modifies this`end
      ensures Valid()
      ensures old(Contents()) == [] ==> r == Err(InvalidSize) && Contents() == []
      ensures old(Contents()) != [] ==>
        r == Ok(old(Contents())[|old(Contents())| - 1]) && Contents() == old(Contents())[..|old(Contents())| - 1]
    {
      if end == 0 {
        return Err(InvalidSize);
      }
      end := end - 1;
      return Ok(data[end]);
    }

    method Clear()
      requires Valid()
      modifies this`end
      ensures Valid() && Contents() == []
    {
      end := 0;
    }

    /**
     * Insertion sort in place: each element in turn is lifted out and the
     * elements it belongs before are shifted one slot right.
     */
    method SortOrder(inOrder: (T, T) -> bool)
      requires Valid()
      modifies data
      ensures Valid()
      ensures Contents() == InsertionSort(old(Contents()), inOrder)
    {
      ghost var s := data[..end];
      var ii := 0;
      while ii < end
        invariant 0 <= ii <= end
        invariant SortedUpTo(data[..], s, ii, inOrder)
      {
        ghost var before := data[..];
        assert before[..ii] == data[..ii];
        ShiftIn(ii, inOrder);
        assert data[..ii + 1] == data[..][..ii + 1] && data[ii + 1..] == data[..][ii + 1..];
        SortStep(s, ii, before, data[..], inOrder);
        ii := ii + 1;
      }
      assert data[..end] == data[..][..end] && s[..end] == s;
    }

    /** One pass of `sort_order`: slot `ii` moves left past every element it belongs before. */
    method ShiftIn(ii: nat, inOrder: (T, T) -> bool)
      requires Valid() && ii < end
      modifies data
      ensures data[..ii + 1] == InsertBack(old(data[..ii]), old(data[ii]), inOrder)
      ensures data[ii + 1..] == old(data[ii + 1..])
    {
      ghost var p := data[..ii];
      ghost var tail := data[ii + 1..];
      var jj := ii;
      var temp := data[jj];
      ghost var hole := temp;
      assert p[..jj] == p && p[jj..] == [];
      assert data[..] == p[..jj] + [hole] + p[jj..] + tail;
      while jj > 0 && inOrder(temp, data[jj - 1])
        invariant 0 <= jj <= ii
        invariant data[..] == p[..jj] + [hole] + p[jj..] + tail
        invariant InsertBack(p, temp, inOrder) == InsertBack(p[..jj], temp, inOrder) + p[jj..]
      {
        ShiftedView(p, jj, hole, tail);
        InsertBackShift(p, jj, temp, inOrder);
        data[jj] := data[jj - 1];
        hole := p[jj - 1];
        jj := jj - 1;
      }
      InsertBackStop(p, jj, temp, inOrder);
      PlacedView(p, jj, hole, temp, tail);
      ghost var v := data[..];
      data[jj] := temp;
      assert data[..] == v[jj := temp];
      assert data[..ii + 1] == data[..][..ii + 1];
      assert data[ii + 1..] == data[..][ii + 1..];
    }

    /**
     * Inserts `x` before the first element it belongs before, shifting the
     * rest right; on a full list the last element falls off. With no such
     * element, `x` goes at the back if there is room. Returns whether `x`
     * was placed.
     */
    method Slot(x: T, inOrder: (T, T) -> bool) returns (placed: bool)
      requires Valid()
      modifies this`end, data
      ensures Valid()
      ensures placed <==> FirstAfter(old(Contents()), x, inOrder) < old(|Contents()|) || old(|Contents()|) < Capacity()
      ensures Contents() ==
        if !placed then old(Contents())
        else if old(|Contents()|) < Capacity() then Slotted(old(Contents()), x, inOrder)
        else Slotted(old(Contents()), x, inOrder)[..Capacity()]
    {
      ghost var s := data[..end];
      var n := end;
      var ii := 0;
      while ii < n
        invariant ii <= n && data[..end] == s && end == n
        invariant forall i :: 0 <= i < ii ==> !inOrder(x, s[i])
      {
        if inOrder(x, data[ii]) {
          assert FirstAfter(s, x, inOrder) == ii;
          assert Slotted(s, x, inOrder) == s[..ii] + [x] + s[ii..];
          PlaceAt(ii, x);
          return true;
        }
        ii := ii + 1;
      }
      if end < data.Length {
        data[end] := x;
        end := end + 1;
        assert data[..end] == s + [x];
        assert s[..n] == s && s[n..] == [];
        return true;
      }
      return false;
    }

    /** `x` goes in at `ii`, the rest move one slot right; on a full list the last element falls off. */
    method PlaceAt(ii: nat, x: T)
      requires Valid() && ii < end
      modifies this`end, data
      ensures Valid()
      ensures var slotted := old(Contents())[..ii] + [x] + old(Contents())[ii..];
        Contents() == if old(end) < data.Length then slotted else slotted[..data.Length]
    {
      ghost var s := data[..end];
      ghost var slotted := s[..ii] + [x] + s[ii..];
      var n := end;
      var toInsert := ShiftRight(ii, x);
      assert data[..n] == slotted[..n];
      if n < data.Length {
        data[end] := toInsert;
        end := end + 1;
        assert data[..end] == data[..n] + [toInsert];
        assert slotted == slotted[..n] + [slotted[n]];
      }
    }

    /**
     * The shift loop of `slot`: `x` goes into slot `ii` and every element
     * from `ii` on moves one slot right; the element pushed off the end is
     * returned.
     */
    method ShiftRight(ii: nat, x: T) returns (carried: T)
      requires Valid() && ii <= end
      modifies data
      ensures Valid()
      ensures data[..end] == (old(data[..end])[..ii] + [x] + old(data[..end])[ii..])[..end]
      ensures carried == (old(data[..end])[..ii] + [x] + old(data[..end])[ii..])[end]
    {
      ghost var a := data[..];
      ghost var s := data[..end];
      ghost var slotted := s[..ii] + [x] + s[ii..];
      carried := x;
      var jj := ii;
      while jj < end
        invariant ii <= jj <= end
        invariant forall k :: 0 <= k < jj ==> data[k] == slotted[k]
        invariant forall k :: jj <= k < end ==> data[k] == a[k]
        invariant carried == slotted[jj]
      {
        var toMove := data[jj];
        data[jj] := carried;
        carried := toMove;
        jj := jj + 1;
      }
      assert data[..end] == slotted[..end];
    }
  }
}
