/**
 * `ImageCropped`: presents a small image as the centre of a larger, "fake"
 * image. The inner image starts a quarter of the fake size (rounded up) in
 * from the top-left corner; every pixel outside it reads as black and
 * ignores writes.
 */
module ImageCrops {
  import opened Errors
  import opened Images

  /** `n.div_ceil(4)`: a quarter of `n`, rounded up. */
  function Padding(n: nat): (p: nat)
    ensures n <= 4 * p < n + 4
  {
    (n + 3) / 4
  }

  class ImageCropped {
    var img: ImageBasic
    var sizeFake: Pixel

    constructor (img: ImageBasic, sizeFake: Pixel)
      ensures this.img == img && this.sizeFake == sizeFake
    {
      this.img := img;
      this.sizeFake := sizeFake;
    }

    /** Whether `px` of the fake image falls on the inner image. */
    predicate InWindow(px: Pixel)
      reads this, img
    {
      Padding(sizeFake.x) <= px.x < img.Width() + Padding(sizeFake.x) &&
      Padding(sizeFake.y) <= px.y < img.Height() + Padding(sizeFake.y)
    }

    /** The inner pixel `px` of the fake image lies on. */
    function Inner(px: Pixel): (q: Pixel)
      reads this, img
      requires InWindow(px)
      ensures img.ValidPixel(q)
    {
      Pixel(px.x - Padding(sizeFake.x), px.y - Padding(sizeFake.y))
    }

    function Get(px: Pixel): (v: Byte)
      reads this, img, img.img
      ensures !InWindow(px) ==> v == 0
      ensures InWindow(px) ==> v == img.Get(Inner(px))
    {
      if InWindow(px) then img.Get(Inner(px)) else 0
    }

    /** Writes through to the inner image inside the window; elsewhere it does nothing. */
    method Set(px: Pixel, value: Byte)
      modifies img.img
      ensures Get(px) == if InWindow(px) then value else 0
      ensures InWindow(px) ==> img.Get(Inner(px)) == value
      ensures forall y, x ::
        (0 <= y < img.Height() && 0 <= x < img.Width() && (!InWindow(px) || (y, x) != (Inner(px).y, Inner(px).x))) ==>
          img.img[y, x] == old(img.img[y, x])
    {
      if InWindow(px) {
        img.Set(Inner(px), value);
      }
    }

    /** The fake width. */
    function Width(): (w: nat)
      reads this
      ensures w == sizeFake.x
    {
      sizeFake.x
    }

    /** The fake height. */
    function Height(): (h: nat)
      reads this
      ensures h == sizeFake.y
    {
      sizeFake.y
    }
  }

  /** Every pixel of the inner image shows through at its padded position. */
  lemma InnerShowsThrough(c: ImageCropped, x: nat, y: nat)
    requires x < c.img.Width() && y < c.img.Height()
    ensures c.Get(Pixel(x + Padding(c.sizeFake.x), y + Padding(c.sizeFake.y))) == c.img.Get(Pixel(x, y))
  {
  }

  /** The padding band around the inner image reads as black. */
  lemma PaddingIsBlack(c: ImageCropped, px: Pixel)
    requires px.x < Padding(c.sizeFake.x) || px.y < Padding(c.sizeFake.y) ||
      c.img.Width() + Padding(c.sizeFake.x) <= px.x || c.img.Height() + Padding(c.sizeFake.y) <= px.y
    ensures c.Get(px) == 0
  {
  }
}
