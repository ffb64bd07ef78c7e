/**
 * The sixel encoder of one image (the non-template `Encoder`): a buffer of
 * `xDim * yDim` colour indices, encoded band by band. The last band may be
 * shorter than six rows; it then reads only the rows that exist.
 *
 * The colour map supplies the palette text and the largest colour index.
 * The run state (`buffer`, `current`, `repeats`) lives in a `RunBuffer`
 * the encoder owns.
 */
module SixelEncoder {
  import opened VtControl
  import opened SixelRuns
  import opened SixelFormat
  import opened SixelColourMap
  import opened SixelBand
  import opened SixelImage

  class Encoder {
    const xDim: nat
    const yDim: nat
    /** The colour index of every pixel, row after row. */
    const data: array<int>
    const colourmap: CMap
    const runs: RunBuffer

    predicate Valid()
      reads this
    {
      data.Length == xDim * yDim
    }

    constructor (xDim: nat, yDim: nat, colourmap: CMap)
      ensures Valid() && fresh(data) && fresh(runs)
      ensures this.xDim == xDim && this.yDim == yDim && this.colourmap == colourmap
      ensures forall i | 0 <= i < data.Length :: data[i] == 0
    {
      this.xDim, this.yDim, this.colourmap := xDim, yDim, colourmap;
      data := new int[xDim * yDim](_ => 0);
      runs := new RunBuffer();
    }

    /** `encode (y0, intensity)`: the chunk of one colour of the band at row y0. */
    method EncodeIntensity(y0: nat, intensity: int) returns (out: string)
      requires Valid() && y0 < yDim
      modifies runs
      ensures out == Chunk(intensity, RowMasks(data[..], xDim, y0, BandRows(yDim, y0), intensity))
    {
      BandFits(data.Length, xDim, yDim, y0);
      out := EncodeColour(data[..], xDim, y0, BandRows(yDim, y0), intensity, runs);
    }

    /** `encode (y0)`: the text of the band at row y0. */
    method EncodeBand(y0: nat) returns (out: string)
      requires Valid() && y0 < yDim
      requires HasColourUpTo(data[..], xDim, y0, BandRows(yDim, y0), colourmap.maximum)
      modifies runs
      ensures out == BandText(data[..], xDim, y0, BandRows(yDim, y0), colourmap.maximum)
    {
      BandFits(data.Length, xDim, yDim, y0);
      out := EncodeRows(data[..], xDim, y0, BandRows(yDim, y0), colourmap.maximum, runs);
    }

    /**
     * `write`: the sixel start, the colour definitions, every band from the
     * top, the sixel end and, when the terminal needs it, a move to the
     * start of the next line.
     */
    method Write(newline: bool) returns (out: string)
      requires Valid()
      requires EveryBandColoured(data[..], xDim, yDim, colourmap.maximum)
      modifies runs
      ensures out == SixelStart + PaletteText(Registers(colourmap))
                     + Bands(data[..], xDim, yDim, colourmap.maximum, RoundUp6(yDim)) + SixelStop
                     + (if newline then MoveCursor(Down, 1) + Return else "")
    {
      var palette := Specifier(colourmap);
      var bands := EncodeBands(data[..], xDim, yDim, colourmap.maximum, runs);
      out := SixelStart + palette + bands + SixelStop;
      if newline {
        out := out + (MoveCursor(Down, 1) + Return);
      }
    }
  }

  /** The band loop of `write`: `encode (y)` for y = 0, 6, 12, ... below yDim. */
  method EncodeBands(pixels: seq<int>, xDim: nat, yDim: nat, maximum: int, runs: RunBuffer) returns (out: string)
    requires |pixels| == xDim * yDim
    requires EveryBandColoured(pixels, xDim, yDim, maximum)
    modifies runs
    ensures out == Bands(pixels, xDim, yDim, maximum, RoundUp6(yDim))
  {
    out := "";
    var y := 0;
    while y < yDim
      invariant y % 6 == 0 && y < yDim + 6
      invariant out == Bands(pixels, xDim, yDim, maximum, y)
      decreases yDim - y
    {
      var band := EncodeBandAt(pixels, xDim, yDim, maximum, y, runs);
      out := out + band;
      y := y + 6;
    }
    assert y == RoundUp6(yDim);
  }

  /** One turn of the band loop: `encode (y)` extends the bands above y by the band at y. */
  method EncodeBandAt(pixels: seq<int>, xDim: nat, yDim: nat, maximum: int, y: nat, runs: RunBuffer) returns (band: string)
    requires |pixels| == xDim * yDim && y % 6 == 0 && y < yDim
    requires EveryBandColoured(pixels, xDim, yDim, maximum)
    modifies runs
    ensures Bands(pixels, xDim, yDim, maximum, y + 6) == Bands(pixels, xDim, yDim, maximum, y) + band
  {
    BandFits(|pixels|, xDim, yDim, y);
    band := EncodeRows(pixels, xDim, y, BandRows(yDim, y), maximum, runs);
  }
}
