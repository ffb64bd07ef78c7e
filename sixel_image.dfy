/**
 * The bands of a whole image: a buffer of `rows` rows of `width` colour
 * indices is written as the text of the band at row 0, then at row 6, and
 * so on, each band `min(rows - y0, 6)` rows high.
 */
module SixelImage {
  import opened SixelFormat

  /** Rows of the band that starts at row y0: the rest of the image, at most six. */
  function BandRows(yDim: int, y0: int): (n: int)
    ensures n <= 6 && n <= yDim - y0
    ensures n == 6 || n == yDim - y0
  {
    if yDim - y0 < 6 then yDim - y0 else 6
  }

  /**
   * The rows of a band lie inside a buffer of `yDim` rows of `xDim`, so
   * every read of `encode` is in bounds, the short last band included.
   */
  lemma BandFits(len: int, xDim: nat, yDim: nat, y0: nat)
    requires len == xDim * yDim && y0 < yDim
    ensures 1 <= BandRows(yDim, y0) && 0 <= y0 * xDim <= (y0 + BandRows(yDim, y0)) * xDim <= len
  {
    MulMono(y0 + BandRows(yDim, y0), yDim, xDim);
    MulMono(y0, y0 + BandRows(yDim, y0), xDim);
  }

  /** Every band holds some colour in 0..maximum, so every band text is defined. */
  predicate EveryBandColoured(pixels: seq<int>, xDim: nat, yDim: nat, maximum: int) {
    forall y0 | 0 <= y0 < yDim && y0 % 6 == 0 :: HasColourUpTo(pixels, xDim, y0, BandRows(yDim, y0), maximum)
  }

  /** The texts of the bands of the rows above y (a multiple of six), top band first. */
  function Bands(pixels: seq<int>, xDim: nat, yDim: nat, maximum: int, y: nat): string
    requires |pixels| == xDim * yDim && y % 6 == 0 && y < yDim + 6
    requires EveryBandColoured(pixels, xDim, yDim, maximum)
    decreases y
  {
    if y == 0 then ""
    else
      BandFits(|pixels|, xDim, yDim, y - 6);
      Bands(pixels, xDim, yDim, maximum, y - 6) + BandText(pixels, xDim, y - 6, BandRows(yDim, y - 6), maximum)
  }

  /** The number of rows in whole bands: yDim rounded up to a multiple of six. */
  function RoundUp6(yDim: nat): (r: nat)
    ensures r % 6 == 0 && yDim <= r < yDim + 6
  {
    (yDim + 5) / 6 * 6
  }
}
