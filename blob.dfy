/**
 * Blob detection by "grass fire": starting from a bright pixel, every
 * connected foreground pixel is consumed (set to 0) and added to the blob,
 * whose size, total intensity and intensity-weighted centroid are kept up
 * to date pixel by pixel.
 */
module Blobs {
  import opened Errors
  import opened Images
  import opened Sorting
  import opened ArrayLists
  import opened ListOps

  datatype Vector2 = Vector2(x: real, y: real)

  /** A blob: how many pixels it has, their summed intensity and its centroid. */
  datatype Blob = Blob(size: nat, intensity: nat, centroid: Vector2)

  /** `Blob::new`: an empty blob at the origin. */
  function NewBlob(): (b: Blob)
    ensures b.size == 0 && b.intensity == 0
  {
    Blob(0, 0, Vector2(0.0, 0.0))
  }

  /**
   * The centroid along one axis after a pixel at `pPos` of intensity `pInt`
   * joins a blob of intensity `bInt` centred at `bPos`. The source divides
   * by the combined intensity without a check, so it must not be 0.
   */
  function FindCentroid(bPos: real, bInt: nat, pPos: nat, pInt: nat): (c: real)
    requires bInt + pInt > 0
    ensures bInt == 0 ==> c == pPos as real
    ensures pInt == 0 ==> c == bPos
    ensures bPos <= pPos as real ==> bPos <= c <= pPos as real
    ensures pPos as real <= bPos ==> pPos as real <= c <= bPos
  {
    (bPos * bInt as real + (pPos * pInt) as real) / (bInt + pInt) as real
  }

  /** The new centroid carries the moment of the old blob plus that of the pixel. */
  lemma CentroidMoment(bPos: real, bInt: nat, pPos: nat, pInt: nat)
    requires bInt + pInt > 0
    ensures FindCentroid(bPos, bInt, pPos, pInt) * (bInt + pInt) as real == bPos * bInt as real + (pPos * pInt) as real
  {
  }

  /** `sort_descending_intensity`: `a` belongs before `b` when it is brighter. */
  function SortDescendingIntensity(a: Blob, b: Blob): (r: bool)
    ensures a.intensity == b.intensity ==> !r
    ensures r ==> 0 < a.intensity
  {
    b.intensity < a.intensity
  }

  /** `sort_descending_size_intensity`: ordered by intensity times size, largest first. */
  function SortDescendingSizeIntensity(a: Blob, b: Blob): (r: bool)
    ensures a.intensity * a.size == b.intensity * b.size ==> !r
    ensures r ==> 0 < a.intensity && 0 < a.size
  {
    b.intensity * b.size < a.intensity * a.size
  }

  lemma DescendingIntensityIsStrictWeak()
    ensures StrictWeakOrder(SortDescendingIntensity)
  {
  }

  lemma DescendingSizeIntensityIsStrictWeak()
    ensures StrictWeakOrder(SortDescendingSizeIntensity)
  {
  }

  /** A per-pixel weight: `w(x, y, v)` for value `v` at column `x`, row `y`. */
  type Weight = (nat, nat, Byte) -> nat

  function RowWeigh(row: seq<Byte>, y: nat, w: Weight): nat
  {
    if |row| == 0 then 0 else RowWeigh(row[..|row| - 1], y, w) + w(|row| - 1, y, row[|row| - 1])
  }

  /** The sum of `w` over every pixel of the image. */
  function Weigh(rows: seq<seq<Byte>>, w: Weight): nat
  {
    if |rows| == 0 then 0 else Weigh(rows[..|rows| - 1], w) + RowWeigh(rows[|rows| - 1], |rows| - 1, w)
  }

  function IsLit(x: nat, y: nat, v: Byte): nat { if v != 0 then 1 else 0 }
  function Value(x: nat, y: nat, v: Byte): nat { v }
  function MomentX(x: nat, y: nat, v: Byte): nat { x * v }
  function MomentY(x: nat, y: nat, v: Byte): nat { y * v }

  /** The image `rows` with pixel `(x, y)` replaced by `v`. */
  function Put(rows: seq<seq<Byte>>, y: nat, x: nat, v: Byte): (r: seq<seq<Byte>>)
    requires y < |rows| && x < |rows[y]|
    ensures |r| == |rows| && r[y] == rows[y][x := v]
    ensures forall i :: 0 <= i < |rows| && i != y ==> r[i] == rows[i]
  {
    var row: seq<Byte> := rows[y][x := v];
    rows[y := row]
  }

  /** Changing one value changes a row's weight by the difference of the two weights. */
  lemma {:induction false} RowWeighUpdate(row: seq<Byte>, y: nat, x: nat, v: Byte, w: Weight)
    requires x < |row|
    ensures RowWeigh(row[x := v], y, w) + w(x, y, row[x]) == RowWeigh(row, y, w) + w(x, y, v)
  {
    var t := row[x := v];
    if x < |row| - 1 {
      RowWeighUpdate(row[..|row| - 1], y, x, v, w);
      assert t[..|t| - 1] == row[..|row| - 1][x := v];
    } else {
      assert t[..|t| - 1] == row[..|row| - 1];
    }
  }

  /** Changing one pixel changes the image's weight by the difference of the two weights. */
  lemma {:induction false} WeighUpdate(rows: seq<seq<Byte>>, y: nat, x: nat, v: Byte, w: Weight)
    requires y < |rows| && x < |rows[y]|
    ensures Weigh(Put(rows, y, x, v), w) + w(x, y, rows[y][x]) == Weigh(rows, w) + w(x, y, v)
  {
    var t := Put(rows, y, x, v);
    if y < |rows| - 1 {
      WeighUpdate(rows[..|rows| - 1], y, x, v, w);
      assert t[..|t| - 1] == Put(rows[..|rows| - 1], y, x, v);
    } else {
      assert t[..|t| - 1] == rows[..|rows| - 1];
      RowWeighUpdate(rows[y], y, x, v, w);
    }
  }

  /** The four neighbours `find_neighbours` looks at, in its order: right, left, up, down. */
  function Neighbours(pt: Pixel): (ns: seq<Pixel>)
    ensures 2 <= |ns| <= 4
  {
    [Pixel(pt.x + 1, pt.y)]
    + (if 0 < pt.x then [Pixel(pt.x - 1, pt.y)] else [])
    + (if 0 < pt.y then [Pixel(pt.x, pt.y - 1)] else [])
    + [Pixel(pt.x, pt.y + 1)]
  }

  /** `rows` holds exactly the pixels of `img`, row by row. */
  ghost predicate Shows(img: ImageBasic, rows: seq<seq<Byte>>)
    reads img, img.img
  {
    |rows| == img.Height() &&
    (forall y :: 0 <= y < |rows| ==> |rows[y]| == img.Width()) &&
    forall y, x :: 0 <= y < img.Height() && 0 <= x < img.Width() ==> rows[y][x] == img.img[y, x]
  }

  /** Every pixel of `rows` is as in `rows0` or has been set to 0. */
  ghost predicate Cleared(rows0: seq<seq<Byte>>, rows: seq<seq<Byte>>)
  {
    |rows| == |rows0| &&
    (forall y :: 0 <= y < |rows0| ==> |rows[y]| == |rows0[y]|) &&
    forall y, x :: 0 <= y < |rows0| && 0 <= x < |rows0[y]| ==> rows[y][x] == rows0[y][x] || rows[y][x] == 0
  }

  /** `px` lies inside `rows` and has been set to 0. */
  predicate Dark(rows: seq<seq<Byte>>, px: Pixel)
  {
    px.y < |rows| && px.x < |rows[px.y]| && rows[px.y][px.x] == 0
  }

  lemma ClearedTrans(a: seq<seq<Byte>>, b: seq<seq<Byte>>, c: seq<seq<Byte>>)
    requires Cleared(a, b) && Cleared(b, c)
    ensures Cleared(a, c)
    ensures forall p :: Dark(b, p) ==> Dark(c, p)
  {
  }

  lemma ClearedPut(rows: seq<seq<Byte>>, y: nat, x: nat)
    requires y < |rows| && x < |rows[y]|
    ensures Cleared(rows, Put(rows, y, x, 0)) && Dark(Put(rows, y, x, 0), Pixel(x, y))
  {
  }

  /** Only one grid of rows shows a given image: its `Pixels()`. */
  lemma ShowsPixels(img: ImageBasic, rows: seq<seq<Byte>>)
    requires Shows(img, rows)
    ensures rows == img.Pixels()
  {
    var p := img.Pixels();
    forall y | 0 <= y < |rows|
      ensures rows[y] == p[y]
    {
    }
  }

  /** Whether `px` is inside the image `rows` and at least as bright as the foreground level there. */
  predicate Lit(rows: seq<seq<Byte>>, foreground: Pixel -> Byte, px: Pixel)
  {
    px.y < |rows| && px.x < |rows[px.y]| && foreground(px) <= rows[px.y][px.x]
  }

  /** The pixels of `ps` that are lit, in order. */
  function LitOf(rows: seq<seq<Byte>>, foreground: Pixel -> Byte, ps: seq<Pixel>): (r: seq<Pixel>)
    ensures |r| <= |ps|
  {
    if |ps| == 0 then []
    else LitOf(rows, foreground, ps[..|ps| - 1]) + IfLit(rows, foreground, ps[|ps| - 1])
  }

  /** `[px]` when `px` is lit, otherwise nothing. */
  function IfLit(rows: seq<seq<Byte>>, foreground: Pixel -> Byte, px: Pixel): (r: seq<Pixel>)
    ensures |r| <= 1
  {
    if Lit(rows, foreground, px) then [px] else []
  }

  /** Exactly the lit pixels of `ps` pass the filter. */
  lemma {:induction false} LitOfSound(rows: seq<seq<Byte>>, foreground: Pixel -> Byte, ps: seq<Pixel>)
    ensures forall p :: p in LitOf(rows, foreground, ps) <==> p in ps && Lit(rows, foreground, p)
  {
    if |ps| > 0 {
      LitOfSound(rows, foreground, ps[..|ps| - 1]);
      assert ps == ps[..|ps| - 1] + [ps[|ps| - 1]];
    }
  }

  lemma LitOfOne(rows: seq<seq<Byte>>, foreground: Pixel -> Byte, px: Pixel)
    ensures LitOf(rows, foreground, [px]) == IfLit(rows, foreground, px)
  {
    assert [px][..0] == [];
  }

  /** Filtering distributes over concatenation. */
  lemma {:induction false} LitOfSplit(rows: seq<seq<Byte>>, foreground: Pixel -> Byte, a: seq<Pixel>, b: seq<Pixel>)
    ensures LitOf(rows, foreground, a + b) == LitOf(rows, foreground, a) + LitOf(rows, foreground, b)
  {
    if |b| > 0 {
      var init, last := b[..|b| - 1], b[|b| - 1];
      LitOfSplit(rows, foreground, a, init);
      assert (a + b)[..|a + b| - 1] == a + init && (a + b)[|a + b| - 1] == last;
      var la, li, ll := LitOf(rows, foreground, a), LitOf(rows, foreground, init), IfLit(rows, foreground, last);
      calc {
        LitOf(rows, foreground, a + b);
        LitOf(rows, foreground, a + init) + ll;
        la + li + ll;
        la + (li + ll);
        la + LitOf(rows, foreground, b);
      }
    } else {
      assert a + b == a;
    }
  }

  /** The lit neighbours, spelled out in the order they are tried. */
  lemma LitNeighbours(rows: seq<seq<Byte>>, foreground: Pixel -> Byte, pt: Pixel)
    ensures LitOf(rows, foreground, Neighbours(pt)) ==
      IfLit(rows, foreground, Pixel(pt.x + 1, pt.y))
      + (if 0 < pt.x then IfLit(rows, foreground, Pixel(pt.x - 1, pt.y)) else [])
      + (if 0 < pt.y then IfLit(rows, foreground, Pixel(pt.x, pt.y - 1)) else [])
      + IfLit(rows, foreground, Pixel(pt.x, pt.y + 1))
  {
    var right := [Pixel(pt.x + 1, pt.y)];
    var left: seq<Pixel> := if 0 < pt.x then [Pixel(pt.x - 1, pt.y)] else [];
    var up: seq<Pixel> := if 0 < pt.y then [Pixel(pt.x, pt.y - 1)] else [];
    var down := [Pixel(pt.x, pt.y + 1)];
    assert Neighbours(pt) == right + left + up + down;
    LitOfSplit(rows, foreground, right + left + up, down);
    LitOfSplit(rows, foreground, right + left, up);
    LitOfSplit(rows, foreground, right, left);
    LitOfOne(rows, foreground, Pixel(pt.x + 1, pt.y));
    LitOfOne(rows, foreground, Pixel(pt.x, pt.y + 1));
    if 0 < pt.x {
      LitOfOne(rows, foreground, Pixel(pt.x - 1, pt.y));
    }
    if 0 < pt.y {
      LitOfOne(rows, foreground, Pixel(pt.x, pt.y - 1));
    }
  }

  /**
   * Pushes `px` when it is lit, as each step of `find_neighbours` does;
   * `stop` reports a lit pixel that did not fit, after which the stack
   * holds all it can of `all`, the whole sequence of pushes.
   */
  method PushIfLit(foreground: Pixel -> Byte, px: Pixel, img: ImageBasic, stack: ArrayList<Pixel>,
                   ghost rows: seq<seq<Byte>>, ghost acc: seq<Pixel>, ghost all: seq<Pixel>)
    returns (stop: bool)
    requires Shows(img, rows) && acc + IfLit(rows, foreground, px) <= all
    requires stack.Valid() && stack.Contents() == Truncate(acc, stack.Capacity())
    modifies stack`end, stack.data
    ensures Shows(img, rows) && stack.Valid() && stack.Capacity() == old(stack.Capacity())
    ensures stack.Contents() == Truncate(acc + IfLit(rows, foreground, px), stack.Capacity())
    ensures stop ==> stack.Contents() == Truncate(all, stack.Capacity())
  {
    stop := false;
    ghost var next := acc + IfLit(rows, foreground, px);
    TruncateAppend(acc, IfLit(rows, foreground, px), stack.Capacity());
    if img.ValidPixel(px) && foreground(px) <= img.Get(px) {
      var r := stack.PushBack(px);
      stop := r.Err?;
      if stop {
        assert all == next + all[|next|..];
        TruncateFull(next, all[|next|..], stack.Capacity());
      }
    }
  }

  /** Each step of `find_neighbours` pushes a prefix of what all four push. */
  lemma NeighbourSteps<T>(s: seq<T>, r1: seq<T>, r2: seq<T>, r3: seq<T>, r4: seq<T>)
    ensures s + (r1 + r2 + r3 + r4) == s + r1 + r2 + r3 + r4
    ensures s + r1 <= s + r1 + r2 + r3 + r4
    ensures s + r1 + r2 <= s + r1 + r2 + r3 + r4
    ensures s + r1 + r2 + r3 <= s + r1 + r2 + r3 + r4
  {
    var all := s + r1 + r2 + r3 + r4;
    assert all == (s + r1) + (r2 + r3 + r4);
    assert all == (s + r1 + r2) + (r3 + r4);
  }

  /**
   * `find_neighbours`: pushes the lit neighbours of `pt` onto the stack in
   * the order right, left, up, down, and stops at the first one that does
   * not fit. `rows` is the image as it stands.
   */
  method FindNeighbours(foreground: Pixel -> Byte, pt: Pixel, img: ImageBasic, stack: ArrayList<Pixel>,
                        ghost rows: seq<seq<Byte>>)
    requires Shows(img, rows) && stack.Valid()
    modifies stack`end, stack.data
    ensures Shows(img, rows) && stack.Valid() && stack.Capacity() == old(stack.Capacity())
    ensures stack.Contents() == Truncate(old(stack.Contents()) + LitOf(rows, foreground, Neighbours(pt)), stack.Capacity())
  {
    ghost var s := stack.Contents();
    ghost var all := s + LitOf(rows, foreground, Neighbours(pt));
    ghost var r1 := IfLit(rows, foreground, Pixel(pt.x + 1, pt.y));
    ghost var r2: seq<Pixel> := if 0 < pt.x then IfLit(rows, foreground, Pixel(pt.x - 1, pt.y)) else [];
    ghost var r3: seq<Pixel> := if 0 < pt.y then IfLit(rows, foreground, Pixel(pt.x, pt.y - 1)) else [];
    ghost var r4 := IfLit(rows, foreground, Pixel(pt.x, pt.y + 1));
    LitNeighbours(rows, foreground, pt);
    assert LitOf(rows, foreground, Neighbours(pt)) == r1 + r2 + r3 + r4;
    NeighbourSteps(s, r1, r2, r3, r4);
    assert s == s[..|s|];
    ghost var acc := s;
    var stop := PushIfLit(foreground, Pixel(pt.x + 1, pt.y), img, stack, rows, acc, all);
    if stop {
      return;
    }
    acc := acc + r1;
    if 0 < pt.x {
      stop := PushIfLit(foreground, Pixel(pt.x - 1, pt.y), img, stack, rows, acc, all);
      if stop {
        return;
      }
    } else {
      assert acc + r2 == acc;
    }
    acc := acc + r2;
    if 0 < pt.y {
      stop := PushIfLit(foreground, Pixel(pt.x, pt.y - 1), img, stack, rows, acc, all);
      if stop {
        return;
      }
    } else {
      assert acc + r3 == acc;
    }
    acc := acc + r3;
    assert acc + r4 == all;
    stop := PushIfLit(foreground, Pixel(pt.x, pt.y + 1), img, stack, rows, acc, all);
  }

  /** Every pixel waiting on the stack is inside the image. */
  ghost predicate StackInImage(stack: ArrayList<Pixel>, img: ImageBasic)
    reads stack, stack.data, img
    requires stack.Valid()
  {
    forall p :: p in stack.Contents() ==> img.ValidPixel(p)
  }

  /**
   * The blob's size, intensity and centroid moments are what the pixels
   * consumed between `before` and `after` held.
   */
  ghost predicate Accounts(blob: Blob, before: seq<seq<Byte>>, after: seq<seq<Byte>>)
  {
    Keeps(blob.size, IsLit, before, after) &&
    Keeps(blob.intensity, Value, before, after) &&
    KeepsMoment(blob.centroid.x, blob.intensity, MomentX, before, after) &&
    KeepsMoment(blob.centroid.y, blob.intensity, MomentY, before, after)
  }

  /** `count` is the weight that left the image between `before` and `after`. */
  ghost predicate Keeps(count: nat, w: Weight, before: seq<seq<Byte>>, after: seq<seq<Byte>>)
  {
    count + Weigh(after, w) == Weigh(before, w)
  }

  /** The moment of a blob centred at `c` is the moment that left the image. */
  ghost predicate KeepsMoment(c: real, intensity: nat, w: Weight, before: seq<seq<Byte>>, after: seq<seq<Byte>>)
  {
    Moment(c, intensity) + Weigh(after, w) as real == Weigh(before, w) as real
  }

  /** The moment of a blob along one axis: its centroid times its intensity. */
  function Moment(centroid: real, intensity: nat): real
  {
    centroid * intensity as real
  }

  /**
   * The blob after the pixel `cur` of value `v` joins it: one more pixel,
   * `v` more intensity, and the centroid moved by `find_centroid` on each axis.
   */
  function Join(blob: Blob, cur: Pixel, v: Byte): (next: Blob)
    requires v != 0
    ensures next.size == blob.size + 1 && next.intensity == blob.intensity + v
  {
    Blob(blob.size + 1, blob.intensity + v,
      Vector2(FindCentroid(blob.centroid.x, blob.intensity, cur.x, v),
              FindCentroid(blob.centroid.y, blob.intensity, cur.y, v)))
  }

  /** Consuming a lit pixel moves its weight from the image into the blob. */
  lemma JoinAccounts(blob: Blob, rows0: seq<seq<Byte>>, rows: seq<seq<Byte>>, cur: Pixel, v: Byte)
    requires Accounts(blob, rows0, rows)
    requires cur.y < |rows| && cur.x < |rows[cur.y]| && rows[cur.y][cur.x] == v && v != 0
    ensures Accounts(Join(blob, cur, v), rows0, Put(rows, cur.y, cur.x, 0))
  {
    var next := Join(blob, cur, v);
    assert next.size == blob.size + 1 && next.intensity == blob.intensity + v;
    assert next.centroid.x == FindCentroid(blob.centroid.x, blob.intensity, cur.x, v);
    assert next.centroid.y == FindCentroid(blob.centroid.y, blob.intensity, cur.y, v);
    JoinCount(blob.size, 1, rows0, rows, cur, IsLit);
    JoinCount(blob.intensity, v, rows0, rows, cur, Value);
    JoinAxis(blob.centroid.x, blob.intensity, rows0, rows, cur, v, MomentX, cur.x);
    JoinAxis(blob.centroid.y, blob.intensity, rows0, rows, cur, v, MomentY, cur.y);
  }

  /** `JoinAccounts` for a count that gains `gain` from the pixel and nothing from a consumed one. */
  lemma JoinCount(count: nat, gain: nat, rows0: seq<seq<Byte>>, rows: seq<seq<Byte>>, cur: Pixel, w: Weight)
    requires cur.y < |rows| && cur.x < |rows[cur.y]|
    requires w(cur.x, cur.y, rows[cur.y][cur.x]) == gain && w(cur.x, cur.y, 0) == 0
    requires Keeps(count, w, rows0, rows)
    ensures Keeps(count + gain, w, rows0, Put(rows, cur.y, cur.x, 0))
  {
    WeighUpdate(rows, cur.y, cur.x, 0, w);
  }

  /** `JoinAccounts` on one axis, whose moment weight gives the pixel `pos * v`. */
  lemma JoinAxis(c: real, intensity: nat, rows0: seq<seq<Byte>>, rows: seq<seq<Byte>>, cur: Pixel, v: Byte,
                 w: Weight, pos: nat)
    requires cur.y < |rows| && cur.x < |rows[cur.y]| && rows[cur.y][cur.x] == v && v != 0
    requires w(cur.x, cur.y, v) == pos * v && w(cur.x, cur.y, 0) == 0
    requires KeepsMoment(c, intensity, w, rows0, rows)
    ensures KeepsMoment(FindCentroid(c, intensity, pos, v), intensity + v, w, rows0, Put(rows, cur.y, cur.x, 0))
  {
    WeighUpdate(rows, cur.y, cur.x, 0, w);
    MomentStep(c, intensity, pos, v, Weigh(Put(rows, cur.y, cur.x, 0), w), Weigh(rows, w), Weigh(rows0, w));
  }

  /**
   * On one axis: when the pixel's moment `pos * v` leaves the image
   * (`after + pos * v == before`), it arrives in the blob's moment, so the
   * blob and the image together still hold `total`.
   */
  lemma MomentStep(c: real, intensity: nat, pos: nat, v: nat, after: nat, before: nat, total: nat)
    requires intensity + v > 0 && after + pos * v == before
    requires Moment(c, intensity) + before as real == total as real
    ensures Moment(FindCentroid(c, intensity, pos, v), intensity + v) + after as real == total as real
  {
    CentroidMoment(c, intensity, pos, v);
  }

  /**
   * `spread_grass_fire`: pops pixels until the stack is empty; each popped
   * pixel that is still bright pushes its lit neighbours, joins the blob
   * and is set to 0. Afterwards every pixel either kept its value or was
   * consumed, the blob's size, intensity and centroid moments are exactly
   * what the consumed pixels held, and `start` is consumed unless the stack
   * had no room for it.
   */
  method SpreadGrassFire(foreground: Pixel -> Byte, start: Pixel, img: ImageBasic, stack: ArrayList<Pixel>, ghost rows0: seq<seq<Byte>>)
    returns (blob: Blob, ghost rows: seq<seq<Byte>>)
    requires stack.Valid() && StackInImage(stack, img) && img.ValidPixel(start) && Shows(img, rows0)
    modifies img.img, stack`end, stack.data
    ensures stack.Valid() && stack.Contents() == []
    ensures Shows(img, rows) && Cleared(rows0, rows)
    ensures Accounts(blob, rows0, rows)
    ensures old(|stack.Contents()|) < old(stack.Capacity()) ==> img.img[start.y, start.x] == 0
  {
    rows := rows0;
    blob := NewBlob();
    ghost var pushed := |stack.Contents()| < stack.Capacity();
    var _ := stack.PushBack(start);
    var more := true;
    while more
      invariant stack.Valid() && StackInImage(stack, img) && Shows(img, rows)
      invariant Cleared(rows0, rows) && Accounts(blob, rows0, rows)
      invariant pushed ==> start in stack.Contents() || Dark(rows, start)
      invariant !more ==> stack.Contents() == []
      decreases more, 5 * Weigh(rows, IsLit) + |stack.Contents()|
    {
      more, blob, rows := Burn(foreground, img, stack, blob, rows0, rows, start, pushed);
    }
  }

  /**
   * One turn of the `spread_grass_fire` loop: pops the top of the stack
   * and, if that pixel is still bright, consumes it. `more` is false when
   * the stack was already empty. A `start` pixel that was pushed stays on
   * the stack until it has been set to 0.
   */
  method Burn(foreground: Pixel -> Byte, img: ImageBasic, stack: ArrayList<Pixel>, blob: Blob,
              ghost rows0: seq<seq<Byte>>, ghost rows: seq<seq<Byte>>, ghost start: Pixel, ghost pushed: bool)
    returns (more: bool, next: Blob, ghost after: seq<seq<Byte>>)
    requires stack.Valid() && StackInImage(stack, img) && Shows(img, rows)
    requires Cleared(rows0, rows) && Accounts(blob, rows0, rows)
    requires pushed ==> start in stack.Contents() || Dark(rows, start)
    modifies img.img, stack`end, stack.data
    ensures stack.Valid() && StackInImage(stack, img) && Shows(img, after)
    ensures Cleared(rows0, after) && Accounts(next, rows0, after)
    ensures pushed ==> start in stack.Contents() || Dark(after, start)
    ensures !more ==> stack.Contents() == []
    ensures more ==> 5 * Weigh(after, IsLit) + |stack.Contents()| < 5 * Weigh(rows, IsLit) + old(|stack.Contents()|)
  {
    next, after := blob, rows;
    ghost var before := stack.Contents();
    var popped := stack.PopBack();
    if popped.Err? {
      return false, next, after;
    }
    more := true;
    var cur := popped.value;
    assert before == stack.Contents() + [cur];
    if img.Get(cur) != 0 {
      next := Consume(foreground, cur, img, stack, blob, rows0, rows);
      after := Put(rows, cur.y, cur.x, 0);
      ClearedPut(rows, cur.y, cur.x);
      ClearedTrans(rows0, rows, after);
    }
  }

  /**
   * One bright pixel joins the blob: its lit neighbours are pushed, the
   * centroid and intensity are updated and the pixel is set to 0.
   */
  method Consume(foreground: Pixel -> Byte, cur: Pixel, img: ImageBasic, stack: ArrayList<Pixel>, blob: Blob,
                 ghost rows0: seq<seq<Byte>>, ghost rows: seq<seq<Byte>>)
    returns (next: Blob)
    requires stack.Valid() && StackInImage(stack, img) && Shows(img, rows)
    requires img.ValidPixel(cur) && img.Get(cur) != 0 && Accounts(blob, rows0, rows)
    modifies img.img, stack`end, stack.data
    ensures stack.Valid() && StackInImage(stack, img)
    ensures next == Join(blob, cur, old(img.Get(cur)))
    ensures |stack.Contents()| <= old(|stack.Contents()|) + 4
    ensures forall p :: p in old(stack.Contents()) ==> p in stack.Contents()
    ensures Shows(img, Put(rows, cur.y, cur.x, 0)) && Accounts(next, rows0, Put(rows, cur.y, cur.x, 0))
    ensures img.img[cur.y, cur.x] == 0
    ensures forall y, x :: 0 <= y < img.Height() && 0 <= x < img.Width() && (y, x) != (cur.y, cur.x) ==>
      img.img[y, x] == old(img.img[y, x])
  {
    ghost var s := stack.Contents();
    FindNeighbours(foreground, cur, img, stack, rows);
    PushedLit(s, rows, foreground, Neighbours(cur), stack.Capacity());
    forall p | p in stack.Contents()
      ensures img.ValidPixel(p)
    {
      if p !in s {
        assert Lit(rows, foreground, p);
      }
    }
    var v := img.Get(cur);
    next := Join(blob, cur, v);
    img.Set(cur, 0);
    JoinAccounts(blob, rows0, rows, cur, v);
  }

  /**
   * What pushing the lit pixels of `ps` onto a stack holding `s`, cut at
   * its capacity `n`, can leave: at most `|ps|` more pixels, all of `s`,
   * and nothing else but lit pixels.
   */
  lemma PushedLit(s: seq<Pixel>, rows: seq<seq<Byte>>, foreground: Pixel -> Byte, ps: seq<Pixel>, n: nat)
    requires |s| <= n
    ensures var r := Truncate(s + LitOf(rows, foreground, ps), n);
      |r| <= |s| + |ps| &&
      (forall p :: p in s ==> p in r) &&
      (forall p :: p in r ==> p in s || Lit(rows, foreground, p))
  {
    var lit := LitOf(rows, foreground, ps);
    LitOfSound(rows, foreground, ps);
    var r := Truncate(s + lit, n);
    assert r[..|s|] == s;
    forall p | p in r
      ensures p in s || Lit(rows, foreground, p)
    {
      assert p in s + lit;
    }
  }

  /** What `find_blobs` keeps true of the image, seen as `rows`, and of the blob list. */
  ghost predicate Scanned(minSize: nat, image0: seq<seq<Byte>>, rows: seq<seq<Byte>>, lst0: seq<Blob>, lst: ArrayList<Blob>, ordered: bool)
    reads lst, lst.data
    requires lst.Valid()
  {
    Cleared(image0, rows) &&
    (forall b :: b in lst.Contents() ==> b in lst0 || minSize <= b.size) &&
    (ordered ==> Ordered(lst.Contents(), SortDescendingIntensity))
  }

  /**
   * `find_blobs`: scans the image row by row, checking every `min_size`-th
   * pixel (offset by half a step on odd rows); each lit pixel found starts
   * a grass fire, and blobs of at least `min_size` pixels are slotted into
   * `lst`, brightest first. Pixels are only ever consumed, every blob added
   * is at least `min_size` pixels, and a list that was ordered stays so.
   */
  method FindBlobs(minSize: nat, foreground: Pixel -> Byte, img: ImageBasic, stack: ArrayList<Pixel>, lst: ArrayList<Blob>)
    requires stack.Valid() && StackInImage(stack, img) && lst.Valid()
    modifies img.img, stack`end, stack.data, lst`end, lst.data
    ensures stack.Valid() && lst.Valid()
    ensures Cleared(old(img.Pixels()), img.Pixels())
    ensures forall b :: b in lst.Contents() ==> b in old(lst.Contents()) || minSize <= b.size
    ensures Ordered(old(lst.Contents()), SortDescendingIntensity) ==> Ordered(lst.Contents(), SortDescendingIntensity)
  {
    ghost var image0 := img.Pixels();
    ghost var rows := image0;
    ghost var lst0 := lst.Contents();
    ghost var ordered := Ordered(lst0, SortDescendingIntensity);
    var y := 0;
    while y < img.Height()
      invariant stack.Valid() && StackInImage(stack, img) && lst.Valid() && Shows(img, rows)
      invariant Scanned(minSize, image0, rows, lst0, lst, ordered)
    {
      rows := ScanRow(minSize, foreground, y, img, stack, lst, image0, rows, lst0, ordered);
      y := y + 1;
    }
    ShowsPixels(img, rows);
  }

  /** One row of `find_blobs`. */
  method ScanRow(minSize: nat, foreground: Pixel -> Byte, y: nat, img: ImageBasic, stack: ArrayList<Pixel>, lst: ArrayList<Blob>,
                 ghost image0: seq<seq<Byte>>, ghost rows: seq<seq<Byte>>, ghost lst0: seq<Blob>, ghost ordered: bool)
    returns (ghost after: seq<seq<Byte>>)
    requires y < img.Height()
    requires stack.Valid() && StackInImage(stack, img) && lst.Valid() && Shows(img, rows)
    requires Scanned(minSize, image0, rows, lst0, lst, ordered)
    modifies img.img, stack`end, stack.data, lst`end, lst.data
    ensures stack.Valid() && StackInImage(stack, img) && lst.Valid() && Shows(img, after)
    ensures Scanned(minSize, image0, after, lst0, lst, ordered)
  {
    after := rows;
    var stepSize := if minSize < 1 then 1 else minSize;
    var x := (y % 2) * minSize / 2;
    while x < img.Width()
      invariant stack.Valid() && StackInImage(stack, img) && lst.Valid() && Shows(img, after)
      invariant Scanned(minSize, image0, after, lst0, lst, ordered)
      decreases img.Width() - x
    {
      after := Visit(minSize, foreground, Pixel(x, y), img, stack, lst, image0, after, lst0, ordered);
      x := x + stepSize;
    }
  }

  /** One checked pixel of `find_blobs`: a lit pixel starts a grass fire whose blob may join `lst`. */
  method Visit(minSize: nat, foreground: Pixel -> Byte, pos: Pixel, img: ImageBasic, stack: ArrayList<Pixel>, lst: ArrayList<Blob>,
               ghost image0: seq<seq<Byte>>, ghost rows: seq<seq<Byte>>, ghost lst0: seq<Blob>, ghost ordered: bool)
    returns (ghost after: seq<seq<Byte>>)
    requires img.ValidPixel(pos)
    requires stack.Valid() && StackInImage(stack, img) && lst.Valid() && Shows(img, rows)
    requires Scanned(minSize, image0, rows, lst0, lst, ordered)
    modifies img.img, stack`end, stack.data, lst`end, lst.data
    ensures stack.Valid() && StackInImage(stack, img) && lst.Valid() && Shows(img, after)
    ensures Scanned(minSize, image0, after, lst0, lst, ordered)
  {
    after := rows;
    if foreground(pos) <= img.Get(pos) {
      var blob;
      blob, after := SpreadGrassFire(foreground, pos, img, stack, rows);
      ClearedTrans(image0, rows, after);
      if minSize <= blob.size {
        SlotBlob(blob, lst);
      }
    }
  }

  /** `lst.slot(blob, sort_descending_intensity)`, with what it keeps true of the list. */
  method SlotBlob(blob: Blob, lst: ArrayList<Blob>)
    requires lst.Valid()
    modifies lst`end, lst.data
    ensures lst.Valid()
    ensures forall b :: b in lst.Contents() ==> b in old(lst.Contents()) || b == blob
    ensures Ordered(old(lst.Contents()), SortDescendingIntensity) ==> Ordered(lst.Contents(), SortDescendingIntensity)
  {
    ghost var s := lst.Contents();
    DescendingIntensityIsStrictWeak();
    var placed := lst.Slot(blob, SortDescendingIntensity);
    SlottedElements(s, blob, SortDescendingIntensity);
    if Ordered(s, SortDescendingIntensity) {
      SlottedOrdered(s, blob, SortDescendingIntensity);
      if placed && |s| == lst.Capacity() {
        PrefixOrdered(Slotted(s, blob, SortDescendingIntensity), lst.Capacity(), SortDescendingIntensity);
      }
    }
  }
}
