/**
 * Pixels, the focus-peaking palette and the per-pixel overlay rule. A frame is a
 * two-dimensional array of three-channel 8-bit pixels; the edge-magnitude map (the absolute
 * Laplacian of the grey frame, cast to 8 bits) is an input of the same dimensions.
 */
module FocusPeaking {
  import opened Wrappers

  newtype byte = x: int | 0 <= x < 256

  /** One pixel; `c0` and `c2` are the channels the overlay swaps. */
  datatype Pixel = Pixel(c0: byte, c1: byte, c2: byte)

  /** The colours offered by the colour selector, in selector order (Red, Blue, Green). */
  const Palette: seq<Pixel> := [Pixel(255, 0, 0), Pixel(0, 0, 255), Pixel(0, 255, 0)]

  /** The value binary thresholding writes for a marked pixel. */
  const MaxValue: byte := 255

  /**
   * `Palette[index]` with Python list indexing: a negative index counts from the end, and an
   * index outside the list raises, which is `None` here.
   */
  function PaletteColor(index: int): (c: Option<Pixel>)
    ensures c.Some? <==> -|Palette| <= index < |Palette|
    ensures 0 <= index < |Palette| ==> c == Some(Palette[index])
    ensures -|Palette| <= index < 0 ==> c == Some(Palette[|Palette| + index])
    ensures c.Some? ==> c.value in Palette
  {
    if 0 <= index < |Palette| then Some(Palette[index])
    else if -|Palette| <= index < 0 then Some(Palette[|Palette| + index])
    else None
  }

  /** Binary thresholding of one 8-bit magnitude: `MaxValue` above the threshold, else 0. */
  function ThresholdBinary(magnitude: byte, threshold: int): (b: byte)
    ensures b == MaxValue || b == 0
    ensures b == MaxValue <==> magnitude as int > threshold
  {
    if magnitude as int > threshold then MaxValue else 0
  }

  /** A pixel is marked when its thresholded magnitude is non-zero. */
  predicate Marked(magnitude: byte, threshold: int)
  {
    ThresholdBinary(magnitude, threshold) != 0
  }

  /** Exchanges channels 0 and 2 of a pixel. */
  function SwapChannels(p: Pixel): Pixel
  {
    Pixel(p.c2, p.c1, p.c0)
  }

  /** The pixel after masking: the overlay colour where marked, else the frame's pixel. */
  function Masked(p: Pixel, magnitude: byte, threshold: int, color: Pixel): Pixel
  {
    if Marked(magnitude, threshold) then color else p
  }

  /**
   * The overlay's output pixel: a pixel whose magnitude exceeds the threshold shows the
   * channel-swapped overlay colour; every other pixel is the input pixel, channel-swapped.
   */
  function PeakedPixel(p: Pixel, magnitude: byte, threshold: int, color: Pixel): (q: Pixel)
    ensures magnitude as int > threshold ==> q == Pixel(color.c2, color.c1, color.c0)
    ensures magnitude as int <= threshold ==> q == Pixel(p.c2, p.c1, p.c0)
  {
    SwapChannels(Masked(p, magnitude, threshold, color))
  }

  /** A pixel is marked exactly when its magnitude is strictly above the threshold. */
  lemma MarkedIff(magnitude: byte, threshold: int)
    ensures Marked(magnitude, threshold) <==> magnitude as int > threshold
  {
  }

  /** Swapping an unmarked output pixel back gives the input pixel unchanged. */
  lemma UnmarkedPixelRecoverable(p: Pixel, magnitude: byte, threshold: int, color: Pixel)
    requires magnitude as int <= threshold
    ensures SwapChannels(PeakedPixel(p, magnitude, threshold, color)) == p
  {
  }

  /** The positions of a magnitude map that are marked at a threshold. */
  ghost function MarkedPixels(magnitude: array2<byte>, threshold: int): set<(int, int)>
    reads magnitude
  {
    set r, c | 0 <= r < magnitude.Length0 && 0 <= c < magnitude.Length1 && Marked(magnitude[r, c], threshold) :: (r, c)
  }

  /** Raising the threshold can only shrink the set of marked pixels. */
  lemma MarkingShrinks(magnitude: array2<byte>, t1: int, t2: int)
    requires t1 <= t2
    ensures MarkedPixels(magnitude, t2) <= MarkedPixels(magnitude, t1)
  {
  }

  /** Raising the threshold can only unmark a pixel, never mark one. */
  lemma MarkedMonotone(magnitude: byte, t1: int, t2: int)
    requires t1 <= t2
    ensures Marked(magnitude, t2) ==> Marked(magnitude, t1)
  {
  }
}
