/**
 * The two encoding loops both encoders share, over the pixel buffer as it
 * stands while a band is written (`width` pixels per buffer row):
 * `encode (y0, intensity)`, the chunk of one colour of a band, and
 * `encode (y0)`, the text of a whole band. The band has `n` rows; the
 * template encoder always reads six, the other encoder the rows left.
 */
module SixelBand {
  import opened DecimalText
  import opened SixelRuns
  import opened SixelFormat

  /**
   * The body of the column loop: the mask of the `nsixels` pixels from
   * `index`, one buffer row (`stride`) apart. The switch falls through from
   * the band height to the first row; the bits are distinct, so or-ing them
   * in is adding them.
   */
  method ColumnSixel(pixels: seq<int>, stride: nat, index: int, nsixels: nat, intensity: int) returns (s: int)
    requires 1 <= nsixels <= 6 && ColumnFits(|pixels|, index, stride, nsixels)
    ensures s == ColumnBits(pixels, index, stride, nsixels, intensity)
  {
    ColumnBitsSix(pixels, index, stride, nsixels, intensity);
    s := 0;
    if nsixels >= 6 && pixels[index + 5 * stride] == intensity { s := s + 32; }
    if nsixels >= 5 && pixels[index + 4 * stride] == intensity { s := s + 16; }
    if nsixels >= 4 && pixels[index + 3 * stride] == intensity { s := s + 8; }
    if nsixels >= 3 && pixels[index + 2 * stride] == intensity { s := s + 4; }
    if nsixels >= 2 && pixels[index + stride] == intensity { s := s + 2; }
    if pixels[index] == intensity { s := s + 1; }
  }

  /** One turn of the column loop: the mask of column x goes into the run buffer. */
  method AddColumn(pixels: seq<int>, width: nat, y0: nat, n: nat, intensity: int, x: nat, runs: RunBuffer)
    requires 1 <= n <= 6 && x < width && (y0 + n) * width <= |pixels|
    requires runs.Valid() && runs.Added == MasksUpTo(pixels, width, y0, n, intensity, x)
    modifies runs
    ensures runs.Valid() && runs.Added == MasksUpTo(pixels, width, y0, n, intensity, x + 1)
  {
    MasksUpToSnoc(pixels, width, y0, n, intensity, x);
    ColumnMaskIsBits(pixels, width, x, y0, n, intensity);
    var s := ColumnSixel(pixels, width, x + y0 * width, n, intensity);
    runs.Add(s);
  }

  /**
   * `encode (y0, intensity)`: clear the run buffer, add the mask of every
   * column, commit the last run and wrap the text as a chunk.
   */
  method EncodeColour(pixels: seq<int>, width: nat, y0: nat, n: nat, intensity: int, runs: RunBuffer)
    returns (out: string)
    requires 1 <= n <= 6 && (y0 + n) * width <= |pixels|
    modifies runs
    ensures out == Chunk(intensity, RowMasks(pixels, width, y0, n, intensity))
  {
    runs.Clear();
    var x := 0;
    while x < width
      invariant 0 <= x <= width
      invariant runs.Valid() && runs.Added == MasksUpTo(pixels, width, y0, n, intensity, x)
    {
      AddColumn(pixels, width, y0, n, intensity, x, runs);
      x := x + 1;
    }
    runs.Commit(true);
    out := "#" + Show(intensity) + runs.buffer + "$";
  }

  /** The scan of `encode (y0)`: whether `intensity` occurs in the band. */
  method Scan(pixels: seq<int>, width: nat, y0: nat, n: nat, intensity: int) returns (found: bool)
    requires (y0 + n) * width <= |pixels|
    ensures found <==> Occurs(pixels, width, y0, n, intensity)
  {
    var i := y0 * width;
    while i < (y0 + n) * width
      invariant y0 * width <= i
      invariant forall j | y0 * width <= j < i && j < |pixels| :: pixels[j] != intensity
    {
      if pixels[i] == intensity {
        return true;
      }
      i := i + 1;
    }
    return false;
  }

  /**
   * `encode (y0)`: the chunk of every colour 0..maximum that occurs in the
   * band, in ascending order, the last `$` turned into `-`.
   */
  method EncodeRows(pixels: seq<int>, width: nat, y0: nat, n: nat, maximum: int, runs: RunBuffer)
    returns (out: string)
    requires 1 <= n <= 6 && (y0 + n) * width <= |pixels|
    requires HasColourUpTo(pixels, width, y0, n, maximum)
    modifies runs
    ensures out == BandText(pixels, width, y0, n, maximum)
  {
    out := "";
    var intensity := 0;
    while intensity <= maximum
      invariant 0 <= intensity <= maximum + 1
      invariant out == ChunksOf(Colours(pixels, width, y0, n, intensity))
    {
      ColoursStep(pixels, width, y0, n, intensity);
      var found := Scan(pixels, width, y0, n, intensity);
      if found {
        var chunk := EncodeColour(pixels, width, y0, n, intensity, runs);
        out := out + chunk;
      }
      intensity := intensity + 1;
    }
    BandTextIsChunks(pixels, width, y0, n, maximum);
    out := out[..|out| - 1] + "-";
  }
}
