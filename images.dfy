/**
 * `ImageBasic`: a grey-scale image of bytes stored row by row, `img[y, x]`,
 * with the operations every image shares: reset, the pixel range test, the
 * brightness histogram and copying; and the two threshold filters that
 * blank the background of an image.
 */
module Images {
  import opened Errors

  /** A pixel position: `x` is the column, `y` the row. */
  datatype Pixel = Pixel(x: nat, y: nat)

  class ImageBasic {
    /** `img[y, x]` is the pixel in row `y`, column `x`. */
    var img: array2<Byte>

    /** A black image of the given size. */
    constructor (width: nat, height: nat)
      ensures fresh(img)
      ensures img.Length0 == height && img.Length1 == width
      ensures forall y, x :: 0 <= y < height && 0 <= x < width ==> img[y, x] == 0
    {
      img := new Byte[height, width]((_, _) => 0);
    }

    function Width(): (w: nat)
      reads this
      ensures w == img.Length1
    {
      img.Length1
    }

    function Height(): (h: nat)
      reads this
      ensures h == img.Length0
    {
      img.Length0
    }

    /** True exactly when `Get` and `Set` may be used on `px` (they panic otherwise). */
    predicate ValidPixel(px: Pixel)
      reads this
      ensures ValidPixel(px) ==> px.y < img.Length0 && px.x < img.Length1
    {
      px.x < Width() && px.y < Height()
    }

    function Get(px: Pixel): (v: Byte)
      reads this, img
      requires ValidPixel(px)
      ensures v == img[px.y, px.x]
    {
      img[px.y, px.x]
    }

    method Set(px: Pixel, value: Byte)
      requires ValidPixel(px)
      modifies img
      ensures Get(px) == value
      ensures forall y, x :: 0 <= y < Height() && 0 <= x < Width() && (y, x) != (px.y, px.x) ==>
        img[y, x] == old(img[y, x])
    {
      img[px.y, px.x] := value;
    }

    /** The whole image as rows of pixels. */
    ghost function Pixels(): (rows: seq<seq<Byte>>)
      reads this, img
      ensures |rows| == Height()
      ensures forall y :: 0 <= y < |rows| ==> |rows[y]| == Width()
      ensures forall y, x :: 0 <= y < Height() && 0 <= x < Width() ==> rows[y][x] == img[y, x]
    {
      var a := img;
      seq(a.Length0, y requires 0 <= y < a.Length0 reads a =>
        seq(a.Length1, x requires 0 <= x < a.Length1 reads a => a[y, x]))
    }

    /** Sets every pixel to 0, column by column. */
    method Reset()
      modifies img
      ensures forall y, x :: 0 <= y < Height() && 0 <= x < Width() ==> img[y, x] == 0
    {
      var xx := 0;
      while xx < Width()
        invariant xx <= Width()
        invariant forall y, x :: 0 <= y < Height() && 0 <= x < xx ==> img[y, x] == 0
      {
        var yy := 0;
        while yy < Height()
          invariant yy <= Height()
          invariant forall y, x :: 0 <= y < Height() && 0 <= x < xx ==> img[y, x] == 0
          invariant forall y :: 0 <= y < yy ==> img[y, xx] == 0
        {
          img[yy, xx] := 0;
          yy := yy + 1;
        }
        xx := xx + 1;
      }
    }

    /**
     * Counts pixels into `histogram`: a pixel of value `v` goes into bar
     * `v * len / 256`, so with 256 bars each value has its own bar. The
     * histogram must have between 1 and 256 bars.
     */
    method Histogram(histogram: array<nat>) returns (r: Result<()>)
      modifies histogram
      ensures histogram.Length == 0 || 256 < histogram.Length ==>
        r == Err(InvalidSize) && histogram[..] == old(histogram[..])
      ensures 0 < histogram.Length <= 256 ==> r == Ok(())
      ensures r.Ok? ==> forall b :: 0 <= b < histogram.Length ==>
        histogram[b] == old(histogram[b]) + GridCount(Pixels(), b, histogram.Length)
      ensures r.Ok? ==> Sum(histogram[..]) == Sum(old(histogram[..])) + Width() * Height()
    {
      if histogram.Length == 0 || 256 < histogram.Length {
        return Err(InvalidSize);
      }
      CountRows(histogram, Pixels());
      AreaProduct(Height(), Width());
      AreaTransposed(Height(), Width());
      return Ok(());
    }

    /** The loops of `histogram` over an image holding `rows`. */
    method CountRows(histogram: array<nat>, ghost rows: seq<seq<Byte>>)
      requires 0 < histogram.Length <= 256
      requires |rows| == Height() && forall yy :: 0 <= yy < |rows| ==> |rows[yy]| == Width()
      requires forall yy, x :: 0 <= yy < Height() && 0 <= x < Width() ==> rows[yy][x] == img[yy, x]
      modifies histogram
      ensures AddsGrid(histogram[..], old(histogram[..]), rows)
      ensures Sum(histogram[..]) == Sum(old(histogram[..])) + Area(Height(), Width())
    {
      ghost var h0 := histogram[..];
      var y := 0;
      while y < Height()
        invariant y <= Height()
        invariant AddsGrid(histogram[..], h0, rows[..y])
        invariant Sum(histogram[..]) == Sum(h0) + Area(y, Width())
      {
        ghost var h1 := histogram[..];
        HistogramRow(y, histogram, rows[y]);
        CountRow(histogram[..], h1, h0, rows, y);
        y := y + 1;
      }
      assert rows[..y] == rows;
    }

    /** The inner loop of `histogram`: counts the pixels of row `y`, which holds `row`. */
    method HistogramRow(y: nat, histogram: array<nat>, ghost row: seq<Byte>)
      requires y < Height() && 0 < histogram.Length <= 256
      requires |row| == Width() && forall x :: 0 <= x < Width() ==> row[x] == img[y, x]
      modifies histogram
      ensures AddsRow(histogram[..], old(histogram[..]), row)
      ensures Sum(histogram[..]) == Sum(old(histogram[..])) + Width()
    {
      ghost var h0 := histogram[..];
      var x := 0;
      while x < Width()
        invariant x <= Width()
        invariant AddsRow(histogram[..], h0, row[..x])
        invariant Sum(histogram[..]) == Sum(h0) + x
      {
        var v := img[y, x];
        var bar := Bar(v, histogram.Length);
        ghost var before := histogram[..];
        histogram[bar] := histogram[bar] + 1;
        assert histogram[..] == before[bar := before[bar] + 1];
        SumIncrement(before, bar);
        CountPixel(before, h0, row, x);
        x := x + 1;
      }
      assert row[..x] == row;
    }

    /**
     * Copies `from` pixel by pixel; the two images must be the same size.
     * The source's borrow rules keep `from` and this image apart.
     */
    method CopyFrom(from: ImageBasic) returns (r: Result<()>)
      requires from.img != img
      modifies img
      ensures Width() != from.Width() || Height() != from.Height() ==>
        r == Err(InvalidSize) && Pixels() == old(Pixels())
      ensures Width() == from.Width() && Height() == from.Height() ==>
        r == Ok(()) && Pixels() == from.Pixels()
    {
      if Width() != from.Width() || Height() != from.Height() {
        return Err(InvalidSize);
      }
      var xx := 0;
      while xx < Width()
        invariant xx <= Width()
        invariant forall y, x :: 0 <= y < Height() && 0 <= x < xx ==> img[y, x] == from.img[y, x]
      {
        var yy := 0;
        while yy < Height()
          invariant yy <= Height()
          invariant forall y, x :: 0 <= y < Height() && 0 <= x < xx ==> img[y, x] == from.img[y, x]
          invariant forall y :: 0 <= y < yy ==> img[y, xx] == from.img[y, xx]
        {
          img[yy, xx] := from.img[yy, xx];
          yy := yy + 1;
        }
        xx := xx + 1;
      }
      assert forall y :: 0 <= y < Height() ==> Pixels()[y] == from.Pixels()[y];
      return Ok(());
    }

    /** A byte image has 8 bits per pixel. */
    function Bits(): (n: nat)
      ensures n == 8
    {
      8
    }
  }

  /** The histogram bar of value `v` among `bins` bars. */
  function Bar(v: Byte, bins: nat): (b: nat)
    requires 0 < bins
    ensures b < bins
  {
    v * bins / 256
  }

  /** How many values of `row` fall into bar `b`. */
  function RowCount(row: seq<Byte>, b: nat, bins: nat): (n: nat)
    requires 0 < bins
    ensures n <= |row|
  {
    if |row| == 0 then 0
    else RowCount(row[..|row| - 1], b, bins) + (if Bar(row[|row| - 1], bins) == b then 1 else 0)
  }

  lemma RowCountStep(row: seq<Byte>, x: nat, bins: nat)
    requires x < |row| && 0 < bins
    ensures forall b :: RowCount(row[..x + 1], b, bins) == RowCount(row[..x], b, bins) + (if Bar(row[x], bins) == b then 1 else 0)
  {
    assert row[..x + 1][..x] == row[..x];
  }

  /** Bar `b` of `h` is bar `b` of `h0` plus the count of `row` in it. */
  ghost predicate AddsRow(h: seq<nat>, h0: seq<nat>, row: seq<Byte>)
  {
    |h| == |h0| && 0 < |h| && forall b :: 0 <= b < |h| ==> h[b] == h0[b] + RowCount(row, b, |h|)
  }

  /** Counting pixel `x` in its bar extends the counts from `row[..x]` to `row[..x + 1]`. */
  lemma CountPixel(h: seq<nat>, h0: seq<nat>, row: seq<Byte>, x: nat)
    requires x < |row| && AddsRow(h, h0, row[..x])
    ensures var bar := Bar(row[x], |h|); AddsRow(h[bar := h[bar] + 1], h0, row[..x + 1])
  {
    RowCountStep(row, x, |h|);
  }

  /** Bar `b` of `h` is bar `b` of `h0` plus the count of `rows` in it. */
  ghost predicate AddsGrid(h: seq<nat>, h0: seq<nat>, rows: seq<seq<Byte>>)
  {
    |h| == |h0| && 0 < |h| && forall b :: 0 <= b < |h| ==> h[b] == h0[b] + GridCount(rows, b, |h|)
  }

  /** Counting row `y` on top of the counts of `rows[..y]` gives the counts of `rows[..y + 1]`. */
  lemma CountRow(h: seq<nat>, h1: seq<nat>, h0: seq<nat>, rows: seq<seq<Byte>>, y: nat)
    requires y < |rows| && AddsGrid(h1, h0, rows[..y])
    requires AddsRow(h, h1, rows[y])
    ensures AddsGrid(h, h0, rows[..y + 1])
  {
    GridCountStep(rows, y, |h|);
  }

  lemma GridCountStep(rows: seq<seq<Byte>>, y: nat, bins: nat)
    requires y < |rows| && 0 < bins
    ensures forall b :: GridCount(rows[..y + 1], b, bins) == GridCount(rows[..y], b, bins) + RowCount(rows[y], b, bins)
  {
    assert rows[..y + 1][..y] == rows[..y];
  }

  /** How many pixels of the image fall into bar `b`. */
  function GridCount(rows: seq<seq<Byte>>, b: nat, bins: nat): nat
    requires 0 < bins
  {
    if |rows| == 0 then 0
    else GridCount(rows[..|rows| - 1], b, bins) + RowCount(rows[|rows| - 1], b, bins)
  }

  /** `rows * width`, counted row by row. */
  function Area(rows: nat, width: nat): nat
  {
    if rows == 0 then 0 else Area(rows - 1, width) + width
  }

  lemma AreaTransposed(rows: nat, width: nat)
    ensures rows * width == width * rows
  {
  }

  lemma {:induction false} AreaProduct(rows: nat, width: nat)
    ensures Area(rows, width) == rows * width
  {
    if rows > 0 {
      AreaProduct(rows - 1, width);
      assert rows * width == (rows - 1) * width + width;
    }
  }

  function Sum(s: seq<nat>): nat
  {
    if |s| == 0 then 0 else Sum(s[..|s| - 1]) + s[|s| - 1]
  }

  /** Adding one to a single entry adds one to the total. */
  lemma {:induction false} SumIncrement(s: seq<nat>, i: nat)
    requires i < |s|
    ensures Sum(s[i := s[i] + 1]) == Sum(s) + 1
  {
    var t := s[i := s[i] + 1];
    if i < |s| - 1 {
      SumIncrement(s[..|s| - 1], i);
      assert t[..|t| - 1] == s[..|s| - 1][i := s[i] + 1];
    } else {
      assert t[..|t| - 1] == s[..|s| - 1];
    }
  }

  /** With 256 bars every value has a bar of its own. */
  lemma FullHistogramBar(v: Byte)
    ensures Bar(v, 256) == v
  {
  }

  /** The positions in `row` that hold `v`. */
  function Positions(row: seq<Byte>, v: Byte): set<nat>
  {
    set x: nat | x < |row| && row[x] == v
  }

  /** With 256 bars, a row's count for bar `v` is the number of pixels equal to `v`. */
  lemma {:induction false} FullRowCount(row: seq<Byte>, v: Byte)
    ensures RowCount(row, v, 256) == |Positions(row, v)|
  {
    if |row| > 0 {
      var init := row[..|row| - 1];
      FullRowCount(init, v);
      FullHistogramBar(row[|row| - 1]);
      PositionsStep(row, v);
    }
  }

  /** One more pixel adds its position when it holds `v`. */
  lemma PositionsStep(row: seq<Byte>, v: Byte)
    requires |row| > 0
    ensures row[|row| - 1] == v ==> Positions(row, v) == Positions(row[..|row| - 1], v) + {|row| - 1}
    ensures row[|row| - 1] == v ==> |row| - 1 !in Positions(row[..|row| - 1], v)
    ensures row[|row| - 1] != v ==> Positions(row, v) == Positions(row[..|row| - 1], v)
  {
  }

  /**
   * The threshold filter `apply` on one pixel: values below the foreground
   * level become 0, the rest are kept.
   */
  function Threshold(v: Byte, foreground: Byte): (r: Byte)
    ensures r == 0 || r == v
    ensures r == v <==> foreground <= v || v == 0
  {
    if v < foreground then 0 else v
  }

  /** The filter `apply_bin` on one pixel: background to 0, foreground to 255. */
  function Binarise(v: Byte, foreground: Byte): (r: Byte)
    ensures r == 0 || r == 255
    ensures r == 255 <==> foreground <= v
  {
    if v < foreground then 0 else 255
  }

  /** Thresholding twice changes nothing more, and binarising a thresholded pixel binarises the original. */
  lemma ThresholdIdempotent(v: Byte, foreground: Byte)
    ensures Threshold(Threshold(v, foreground), foreground) == Threshold(v, foreground)
    ensures Binarise(Threshold(v, foreground), foreground) == Binarise(v, foreground)
  {
  }

  /** `Threshold::apply`: every pixel below `foreground` at its position is blanked. */
  method Apply(image: ImageBasic, foreground: Pixel -> Byte)
    modifies image.img
    ensures forall y, x :: 0 <= y < image.Height() && 0 <= x < image.Width() ==>
      image.img[y, x] == Threshold(old(image.img[y, x]), foreground(Pixel(x, y)))
  {
    var xx := 0;
    while xx < image.Width()
      invariant xx <= image.Width()
      invariant forall y, x :: 0 <= y < image.Height() && 0 <= x < image.Width() ==>
        image.img[y, x] == if x < xx then Threshold(old(image.img[y, x]), foreground(Pixel(x, y))) else old(image.img[y, x])
    {
      var yy := 0;
      while yy < image.Height()
        invariant yy <= image.Height()
        invariant forall y, x :: 0 <= y < image.Height() && 0 <= x < image.Width() ==>
          image.img[y, x] ==
            if x < xx || (x == xx && y < yy) then Threshold(old(image.img[y, x]), foreground(Pixel(x, y)))
            else old(image.img[y, x])
      {
        var pos := Pixel(xx, yy);
        if image.img[yy, xx] < foreground(pos) {
          image.img[yy, xx] := 0;
        }
        yy := yy + 1;
      }
      xx := xx + 1;
    }
  }

  /** `Threshold::apply_bin`: background pixels become 0 and foreground pixels 255. */
  method ApplyBin(image: ImageBasic, foreground: Pixel -> Byte)
    modifies image.img
    ensures forall y, x :: 0 <= y < image.Height() && 0 <= x < image.Width() ==>
      image.img[y, x] == Binarise(old(image.img[y, x]), foreground(Pixel(x, y)))
  {
    var xx := 0;
    while xx < image.Width()
      invariant xx <= image.Width()
      invariant forall y, x :: 0 <= y < image.Height() && 0 <= x < image.Width() ==>
        image.img[y, x] == if x < xx then Binarise(old(image.img[y, x]), foreground(Pixel(x, y))) else old(image.img[y, x])
    {
      var yy := 0;
      while yy < image.Height()
        invariant yy <= image.Height()
        invariant forall y, x :: 0 <= y < image.Height() && 0 <= x < image.Width() ==>
          image.img[y, x] ==
            if x < xx || (x == xx && y < yy) then Binarise(old(image.img[y, x]), foreground(Pixel(x, y)))
            else old(image.img[y, x])
      {
        var pos := Pixel(xx, yy);
        if image.img[yy, xx] < foreground(pos) {
          image.img[yy, xx] := 0;
        } else {
          image.img[yy, xx] := 255;
        }
        yy := yy + 1;
      }
      xx := xx + 1;
    }
  }
}
