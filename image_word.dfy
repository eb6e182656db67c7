/**
 * `ImageWord`: an image whose pixels are packed as nibbles into a
 * `WordList`, pixel `(x, y)` at nibble `y * width + x`. Reading a pixel
 * gives the nibble cut to a byte; writing keeps only the nibble's low bits.
 */
module ImageWords {
  import opened Errors
  import opened Words
  import opened Images

  /** What a pixel reads back as after `value` was written to an `n`-bit nibble. */
  function Stored(value: Byte, n: nat): (r: Byte)
    ensures n < 8 ==> r < Pow2(n)
  {
    if n >= 8 then value
    else
      var m := Pow2(n);
      ModAtMost(value, m);
      value % m
  }

  /**
   * The value `copy_from` writes for a source byte `v` into an image of
   * `bits` bits per pixel: shifted left by `bits - 8` (dropping what leaves
   * the byte) when the image is deeper than a byte, otherwise shifted
   * right by `8 - bits`.
   */
  function Shifted(v: Byte, bits: nat): (r: Byte)
    requires bits < 16
    ensures bits == 8 ==> r == v
    ensures bits <= 8 ==> r <= v
  {
    if 8 < bits then
      var wide: nat := v * Pow2(bits - 8);
      wide % 256
    else
      var d := Pow2(8 - bits);
      DivAtMost(v, d);
      v / d
  }

  lemma ModAtMost(v: nat, m: nat)
    requires 0 < m
    ensures v % m <= v
  {
    if v < m {
      SmallMod(v, m);
    }
  }

  lemma DivAtMost(v: nat, d: nat)
    requires 0 < d
    ensures 0 <= v / d <= v
  {
    var q := v / d;
    assert v == q * d + v % d;
    if q > 0 {
      MulAtLeast(q, d);
      MulAtLeast(d, q);
      assert q * d == d * q;
    }
  }

  /** At byte depth the copy is exact. */
  lemma CopyExactAtByteDepth(v: Byte)
    ensures Stored(Shifted(v, 8), 8) == v
  {
  }

  /**
   * In a shallower image a copied pixel keeps the top `bits` bits of the
   * source byte, and the nibble holds them without further loss.
   */
  lemma CopyKeepsTopBits(v: Byte, bits: nat)
    requires 0 < bits <= 8
    ensures Shifted(v, bits) < Pow2(bits)
    ensures Stored(Shifted(v, bits), bits) == v / Pow2(8 - bits)
  {
    Pow2Add(bits, 8 - bits);
    DivBelow(v, Pow2(8 - bits), Pow2(bits));
    if bits < 8 {
      SmallMod(Shifted(v, bits), Pow2(bits));
    }
  }

  lemma {:induction false} Pow2Add(a: nat, b: nat)
    ensures Pow2(a + b) == Pow2(a) * Pow2(b)
  {
    if a > 0 {
      Pow2Add(a - 1, b);
      assert Pow2(a + b) == 2 * Pow2(a - 1 + b);
    }
  }

  lemma DivBelow(v: nat, d: nat, q: nat)
    requires 0 < d && v < q * d
    ensures v / d < q
  {

  }

  lemma SmallMod(v: nat, m: nat)
    requires v < m
    ensures v % m == v
  {
  }

  lemma {:induction false} Pow2Grows(a: nat, b: nat)
    requires a <= b
    ensures Pow2(a) <= Pow2(b)
  {
    if a < b {
      Pow2Grows(a, b - 1);
    }
  }

  /** Reading back a byte written into an `n`-bit nibble, as `get` does, gives `Stored`. */
  lemma StoredValue(value: Byte, n: nat)
    requires n <= WORD_BITS
    ensures ToNat(And(WordOf(value), FirstNBits(n))) % 256 == Stored(value, n)
  {
    NibbleValue(value, n);
    var m := Pow2(n);
    assert Pow2(8) == 256;
    if n >= 8 {
      Pow2Grows(8, n);
      SmallMod(value, m);
      SmallMod(value, 256);
    } else {
      Pow2Grows(n, 8);
      SmallMod(value % m, 256);
    }
  }

  /** The nibble of pixel `(x, y)` in a `width`-wide image. */
  function PixelIndex(x: nat, y: nat, width: nat): (i: nat)
    ensures x < width ==> y * width <= i < (y + 1) * width
  {
    y * width + x
  }

  /** A nibble that holds the low bits of `value` reads back as `Stored`. */
  lemma ReadBack(w: Word, value: Byte, n: nat)
    requires n <= WORD_BITS && w == And(WordOf(value), FirstNBits(n))
    ensures ToNat(w) % 256 == Stored(value, n)
  {
    StoredValue(value, n);
  }

  /** Pixel `(x, y)` of a `width`-wide image lies inside `width * height` nibbles. */
  lemma PixelIndexBound(x: nat, y: nat, width: nat, height: nat)
    requires x < width && y < height
    ensures PixelIndex(x, y, width) < width * height
  {
    assert (y + 1) * width <= height * width;
  }

  /** Distinct pixels of the image are distinct nibbles. */
  lemma PixelIndexDistinct(x1: nat, y1: nat, x2: nat, y2: nat, width: nat)
    requires x1 < width && x2 < width && (x1, y1) != (x2, y2)
    ensures PixelIndex(x1, y1, width) != PixelIndex(x2, y2, width)
  {
    if y1 == y2 {
    } else if y1 < y2 {
      assert (y1 + 1) * width <= y2 * width;
    } else {
      assert (y2 + 1) * width <= y1 * width;
    }
  }

  class ImageWord {
    var img: WordList
    var size: Pixel

    ghost predicate Valid()
      reads this, img
    {
      img.Valid() && size.x * size.y <= img.Capacity()
    }

    /** The creation macros: enough zeroed words for `size.x * size.y` nibbles of `nibbleBits` bits. */
    constructor (size: Pixel, wordBits: nat, nibbleBits: nat)
      requires 0 < nibbleBits && wordBits <= WORD_BITS && NibblesInWord(wordBits, nibbleBits) > 0
      ensures Valid() && fresh(img) && fresh(img.words) && this.size == size
      ensures img.words.Length == ArraySize(wordBits, nibbleBits, size.x * size.y)
      ensures img.size.nibblesSize == nibbleBits
    {
      this.size := size;
      img := new WordList(wordBits, nibbleBits, size.x * size.y);
    }

    function Width(): (w: nat)
      reads this
      ensures w == size.x
    {
      size.x
    }

    function Height(): (h: nat)
      reads this
      ensures h == size.y
    {
      size.y
    }

    /** Bits per pixel: the nibble width. */
    function Bits(): (n: nat)
      reads this, img
      ensures n == img.size.nibblesSize
    {
      img.size.nibblesSize
    }

    /** The pixel at `px`: its nibble, cut to a byte. */
    function Get(px: Pixel): (v: Byte)
      reads this, img, img.words
      requires Valid() && px.x < size.x && px.y < size.y
      ensures v < Pow2(Bits())
    {
      PixelIndexBound(px.x, px.y, size.x, size.y);
      var w := img.Get(PixelIndex(px.x, px.y, size.x));
      LowBitsValue(w, w, img.size.nibblesSize);
      ToNat(w) % 256
    }

    /** Writes `value` into the nibble of `px`; every other pixel keeps its value. */
    method Set(px: Pixel, value: Byte)
      requires Valid() && px.x < size.x && px.y < size.y
      modifies img.words
      ensures Valid()
      ensures Get(px) == Stored(value, img.size.nibblesSize)
      ensures forall x: nat, y: nat :: x < size.x && y < size.y && (x, y) != (px.x, px.y) ==>
        Get(Pixel(x, y)) == old(Get(Pixel(x, y)))
    {
      PixelIndexBound(px.x, px.y, size.x, size.y);
      var index := PixelIndex(px.x, px.y, size.x);
      img.Set(index, WordOf(value));
      ReadBack(img.Get(index), value, img.size.nibblesSize);
      assert Valid();
      forall x: nat, y: nat | x < size.x && y < size.y && (x, y) != (px.x, px.y)
        ensures Get(Pixel(x, y)) == old(Get(Pixel(x, y)))
      {
        PixelIndexBound(x, y, size.x, size.y);
        PixelIndexDistinct(x, y, px.x, px.y, size.x);
      }
    }

    /**
     * Copies `from` pixel by pixel, shifting each value by the difference
     * in bit depth. A shift of 8 bits or more overflows a byte and panics
     * in the source, so the nibble width is below 16.
     */
    method CopyFrom(from: ImageBasic) returns (r: Result<()>)
      requires Valid() && img.size.nibblesSize < 16
      modifies img.words
      ensures Valid()
      ensures Width() != from.Width() || Height() != from.Height() ==>
        r == Err(InvalidSize) && img.words[..] == old(img.words[..])
      ensures Width() == from.Width() && Height() == from.Height() ==>
        r == Ok(()) &&
        forall x: nat, y: nat :: x < size.x && y < size.y ==>
          Get(Pixel(x, y)) == Stored(Shifted(from.Get(Pixel(x, y)), Bits()), Bits())
    {
      if Width() != from.Width() || Height() != from.Height() {
        return Err(InvalidSize);
      }
      var n := Bits();
      var xx := 0;
      while xx < Width()
        invariant xx <= Width() && Valid()
        invariant forall x: nat, y: nat :: x < xx && y < size.y ==>
          Get(Pixel(x, y)) == Stored(Shifted(from.Get(Pixel(x, y)), n), n)
      {
        CopyColumn(from, xx);
        xx := xx + 1;
      }
      return Ok(());
    }

    /** The inner loop of `copy_from`: one column, top to bottom. */
    method CopyColumn(from: ImageBasic, xx: nat)
      requires Valid() && Bits() < 16 && xx < size.x
      requires from.Width() == size.x && from.Height() == size.y
      modifies img.words
      ensures Valid()
      ensures forall y: nat :: y < size.y ==> Get(Pixel(xx, y)) == Stored(Shifted(from.Get(Pixel(xx, y)), Bits()), Bits())
      ensures forall x: nat, y: nat :: x < size.x && y < size.y && x != xx ==> Get(Pixel(x, y)) == old(Get(Pixel(x, y)))
    {
      var n := Bits();
      var yy := 0;
      while yy < Height()
        invariant yy <= Height() && Valid()
        invariant forall y: nat :: y < yy ==> Get(Pixel(xx, y)) == Stored(Shifted(from.Get(Pixel(xx, y)), n), n)
        invariant forall x: nat, y: nat :: x < size.x && y < size.y && (x != xx || yy <= y) ==>
          Get(Pixel(x, y)) == old(Get(Pixel(x, y)))
      {
        var px := Pixel(xx, yy);
        var value := Shifted(from.Get(px), n);
        Set(px, value);
        forall y: nat | y <= yy
          ensures Get(Pixel(xx, y)) == Stored(Shifted(from.Get(Pixel(xx, y)), n), n)
        {
          if y < yy {
            assert (xx, y) != (px.x, px.y);
          }
        }
        yy := yy + 1;
      }
    }
  }
}
