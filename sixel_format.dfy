/**
 * The text of one sixel band, shared by both encoders.
 *
 * The pixel buffer is a flat sequence of colour indices, `width` per row.
 * A band is `n` (at most six) rows starting at row `y0`. For each colour
 * index that occurs in the band, in ascending order, the band holds one
 * chunk: `#` and the index, the run-length text of the row of column masks
 * whose bit k marks the pixels of row y0+k that carry that index, and the
 * graphics carriage return `$`. The very last `$` of the band is replaced
 * by the graphics new line `-` (DEC sixel graphics).
 */
module SixelFormat {
  import opened DecimalText
  import opened Wrappers
  import opened SixelRuns

  /** Multiplication by a non-negative factor is monotonic. */
  lemma MulMono(a: int, b: int, c: nat)
    requires a <= b
    ensures a * c <= b * c
  {
  }

  /** The `n` pixels start, start + stride, start + 2 * stride, ... all lie in a buffer of `len`. */
  predicate ColumnFits(len: int, start: int, stride: nat, n: nat)
    decreases n
  {
    n == 0 || (0 <= start < len && ColumnFits(len, start + stride, stride, n - 1))
  }

  /** Column x, rows y0 to y0+n-1, of a buffer of `rows` rows of `width` lies inside it. */
  lemma {:induction false} ColumnInside(width: nat, rows: nat, x: nat, y0: nat, n: nat)
    requires x < width && y0 + n <= rows
    ensures ColumnFits(rows * width, x + y0 * width, width, n)
    decreases n
  {
    if n > 0 {
      MulMono(y0 + 1, rows, width);
      assert x + y0 * width + width == x + (y0 + 1) * width;
      ColumnInside(width, rows, x, y0 + 1, n - 1);
    }
  }

  function Pow2(k: nat): (p: nat)
    ensures p >= 1
  {
    if k == 0 then 1 else 2 * Pow2(k - 1)
  }

  lemma {:induction false} Pow2Small(k: nat)
    requires k <= 6
    ensures Pow2(k) == [1, 2, 4, 8, 16, 32, 64][k]
  {
    if k > 0 {
      Pow2Small(k - 1);
    }
  }

  /**
   * The mask of the `n` pixels start, start + stride, start + 2 * stride, ...
   * of a buffer: bit k is set when pixel k carries `intensity`.
   */
  function ColumnBits(data: seq<int>, start: int, stride: nat, n: nat, intensity: int): (m: nat)
    requires ColumnFits(|data|, start, stride, n)
    ensures m < Pow2(n)
    decreases n
  {
    if n == 0 then 0
    else (if data[start] == intensity then 1 else 0) + 2 * ColumnBits(data, start + stride, stride, n - 1, intensity)
  }

  /** Bit k of m. */
  predicate Bit(m: nat, k: nat) {
    if k == 0 then m % 2 == 1 else Bit(m / 2, k - 1)
  }

  lemma {:induction false} ZeroHasNoBits(k: nat)
    ensures !Bit(0, k)
  {
    if k > 0 {
      ZeroHasNoBits(k - 1);
    }
  }

  /** The low bit of b + 2 * rest is b; the higher bits are those of rest. */
  lemma BitOfDouble(b: nat, rest: nat, k: nat)
    requires b < 2
    ensures Bit(b + 2 * rest, k) <==> if k == 0 then b == 1 else Bit(rest, k - 1)
  {
    assert (b + 2 * rest) % 2 == b && (b + 2 * rest) / 2 == rest;
  }

  /** Bit k of a column's mask is set exactly when pixel k of the column carries the colour. */
  lemma {:induction false} ColumnBitsAt(data: seq<int>, start: int, stride: nat, n: nat, intensity: int, k: nat)
    requires ColumnFits(|data|, start, stride, n)
    ensures k < n ==> 0 <= start + k * stride < |data|
    ensures Bit(ColumnBits(data, start, stride, n, intensity), k) <==> k < n && data[start + k * stride] == intensity
    decreases n
  {
    if n == 0 {
      ZeroHasNoBits(k);
    } else {
      var rest := ColumnBits(data, start + stride, stride, n - 1, intensity);
      BitOfDouble(if data[start] == intensity then 1 else 0, rest, k);
      if k > 0 {
        ColumnBitsAt(data, start + stride, stride, n - 1, intensity, k - 1);
        assert start + stride + (k - 1) * stride == start + k * stride;
      }
    }
  }

  /**
   * A column mask spelled out as the encoders compute it: the weight 2^k of
   * each of the (at most six) pixels k of the column that carries the colour.
   */
  lemma {:induction false} ColumnBitsSix(data: seq<int>, start: int, stride: nat, n: nat, intensity: int)
    requires n <= 6 && ColumnFits(|data|, start, stride, n)
    ensures n > 0 ==> 0 <= start < |data|
    ensures n > 1 ==> start + stride < |data|
    ensures n > 2 ==> start + 2 * stride < |data|
    ensures n > 3 ==> start + 3 * stride < |data|
    ensures n > 4 ==> start + 4 * stride < |data|
    ensures n > 5 ==> start + 5 * stride < |data|
    ensures ColumnBits(data, start, stride, n, intensity) ==
      0 + (if n > 5 && data[start + 5 * stride] == intensity then 32 else 0) +
      (if n > 4 && data[start + 4 * stride] == intensity then 16 else 0) +
      (if n > 3 && data[start + 3 * stride] == intensity then 8 else 0) +
      (if n > 2 && data[start + 2 * stride] == intensity then 4 else 0) +
      (if n > 1 && data[start + stride] == intensity then 2 else 0) +
      (if n > 0 && data[start] == intensity then 1 else 0)
    decreases n
  {
    if n > 0 {
      var next := start + stride;
      ColumnBitsSix(data, next, stride, n - 1, intensity);
    }
  }

  /** The mask of column x for colour `intensity` in a band of `n` rows from row y0. */
  function ColumnMask(data: seq<int>, width: nat, x: nat, y0: nat, n: nat, intensity: int): (m: int)
    requires n <= 6 && x < width && (y0 + n) * width <= |data|
    ensures IsMask(m)
  {
    ColumnInside(width, y0 + n, x, y0, n);
    ColumnFitsShrink(|data|, (y0 + n) * width, x + y0 * width, width, n);
    Pow2Small(n);
    ColumnBits(data, x + y0 * width, width, n, intensity)
  }

  /** Column x's mask is the mask of the pixels from x + y0 * width, one row apart. */
  lemma ColumnMaskIsBits(data: seq<int>, width: nat, x: nat, y0: nat, n: nat, intensity: int)
    requires n <= 6 && x < width && (y0 + n) * width <= |data|
    ensures ColumnFits(|data|, x + y0 * width, width, n)
    ensures ColumnMask(data, width, x, y0, n, intensity) == ColumnBits(data, x + y0 * width, width, n, intensity)
  {
    ColumnInside(width, y0 + n, x, y0, n);
    ColumnFitsShrink(|data|, (y0 + n) * width, x + y0 * width, width, n);
  }

  lemma {:induction false} ColumnFitsShrink(len: int, len0: int, start: int, stride: nat, n: nat)
    requires len0 <= len && ColumnFits(len0, start, stride, n)
    ensures ColumnFits(len, start, stride, n)
    decreases n
  {
    if n > 0 {
      ColumnFitsShrink(len, len0, start + stride, stride, n - 1);
    }
  }

  /** Bit k of column x's mask is set exactly when pixel (x, y0+k) carries the colour. */
  lemma ColumnMaskBits(data: seq<int>, width: nat, x: nat, y0: nat, n: nat, intensity: int, k: nat)
    requires n <= 6 && x < width && (y0 + n) * width <= |data|
    ensures k < n ==> 0 <= x + (y0 + k) * width < |data|
    ensures Bit(ColumnMask(data, width, x, y0, n, intensity), k) <==>
              k < n && data[x + (y0 + k) * width] == intensity
  {
    ColumnInside(width, y0 + n, x, y0, n);
    ColumnFitsShrink(|data|, (y0 + n) * width, x + y0 * width, width, n);
    ColumnBitsAt(data, x + y0 * width, width, n, intensity, k);
    if k < n {
      assert x + y0 * width + k * width == x + (y0 + k) * width;
    }
  }

  /** The masks of the first `count` columns for one colour across a band of `n` rows. */
  function MasksUpTo(data: seq<int>, width: nat, y0: nat, n: nat, intensity: int, count: nat): (ms: seq<int>)
    requires n <= 6 && count <= width && (y0 + n) * width <= |data|
    ensures |ms| == count && AllMasks(ms)
  {
    if count == 0 then []
    else MasksUpTo(data, width, y0, n, intensity, count - 1) + [ColumnMask(data, width, count - 1, y0, n, intensity)]
  }

  /** One more column extends the masks by that column's mask. */
  lemma MasksUpToSnoc(data: seq<int>, width: nat, y0: nat, n: nat, intensity: int, x: nat)
    requires n <= 6 && x < width && (y0 + n) * width <= |data|
    ensures MasksUpTo(data, width, y0, n, intensity, x + 1) ==
            MasksUpTo(data, width, y0, n, intensity, x) + [ColumnMask(data, width, x, y0, n, intensity)]
  {
  }

  /** The column masks of one colour across a band of `n` rows. */
  function RowMasks(data: seq<int>, width: nat, y0: nat, n: nat, intensity: int): (ms: seq<int>)
    requires n <= 6 && (y0 + n) * width <= |data|
    ensures |ms| == width && AllMasks(ms)
  {
    MasksUpTo(data, width, y0, n, intensity, width)
  }

  /** Column x of a row of masks is the mask of column x. */
  lemma {:induction false} RowMasksAt(data: seq<int>, width: nat, y0: nat, n: nat, intensity: int, count: nat, x: nat)
    requires n <= 6 && x < count <= width && (y0 + n) * width <= |data|
    ensures MasksUpTo(data, width, y0, n, intensity, count)[x] == ColumnMask(data, width, x, y0, n, intensity)
  {
    if x < count - 1 {
      RowMasksAt(data, width, y0, n, intensity, count - 1, x);
    }
  }

  /** Whether some pixel of the band carries `intensity` (the flat scan of the encoders). */
  predicate Occurs(data: seq<int>, width: nat, y0: nat, n: nat, intensity: int) {
    exists i | y0 * width <= i < (y0 + n) * width && i < |data| :: data[i] == intensity
  }

  /** Whether some pixel of the band carries a colour in 0..maximum. */
  predicate HasColourUpTo(data: seq<int>, width: nat, y0: nat, n: nat, maximum: int) {
    exists i | y0 * width <= i < (y0 + n) * width && i < |data| :: 0 <= data[i] <= maximum
  }

  /** The chunk of one colour: select it, draw its row, return to the left margin. */
  function Chunk(intensity: int, masks: seq<int>): string
    requires AllMasks(masks)
  {
    "#" + Show(intensity) + RunLength(masks) + "$"
  }

  /**
   * The colours 0..hi-1 of a band: the row of masks of each colour that
   * occurs in it, None for each colour that does not.
   */
  function Colours(data: seq<int>, width: nat, y0: nat, n: nat, hi: nat): (cs: seq<Option<seq<int>>>)
    requires n <= 6 && (y0 + n) * width <= |data|
    ensures |cs| == hi && ColoursWellFormed(cs)
    ensures forall i | 0 <= i < hi :: cs[i].Some? <==> Occurs(data, width, y0, n, i)
    ensures forall i | 0 <= i < hi :: cs[i].Some? ==> cs[i].value == RowMasks(data, width, y0, n, i)
  {
    seq(hi, i requires 0 <= i < hi =>
      if Occurs(data, width, y0, n, i) then Some(RowMasks(data, width, y0, n, i)) else None)
  }

  predicate ColoursWellFormed(cs: seq<Option<seq<int>>>) {
    forall i | 0 <= i < |cs| :: cs[i].Some? ==> AllMasks(cs[i].value)
  }

  /** The chunks of the colours present in `cs`, in ascending order of colour. */
  function ChunksOf(cs: seq<Option<seq<int>>>): string
    requires ColoursWellFormed(cs)
  {
    if cs == [] then ""
    else
      var lo := ChunksOf(cs[..|cs| - 1]);
      match Last(cs)
      case Some(ms) => lo + Chunk(|cs| - 1, ms)
      case None => lo
  }

  lemma {:induction false} ChunksOfNonEmpty(cs: seq<Option<seq<int>>>, i: nat)
    requires ColoursWellFormed(cs)
    requires i < |cs| && cs[i].Some?
    ensures ChunksOf(cs) != []
  {
    if i < |cs| - 1 {
      ChunksOfNonEmpty(cs[..|cs| - 1], i);
    }
  }

  /**
   * The text of a band: every chunk, with the final carriage return turned
   * into a new line. Defined only when the band holds some colour
   * 0..maximum, since otherwise there is no last character to replace.
   */
  function BandText(data: seq<int>, width: nat, y0: nat, n: nat, maximum: int): string
    requires n <= 6 && (y0 + n) * width <= |data|
    requires HasColourUpTo(data, width, y0, n, maximum)
  {
    BandHasChunks(data, width, y0, n, maximum);
    var c := ChunksOf(Colours(data, width, y0, n, maximum + 1));
    c[..|c| - 1] + "-"
  }

  /** A band that holds some colour 0..maximum has a chunk. */
  lemma BandHasChunks(data: seq<int>, width: nat, y0: nat, n: nat, maximum: int)
    requires n <= 6 && (y0 + n) * width <= |data|
    requires HasColourUpTo(data, width, y0, n, maximum)
    ensures maximum >= 0 && ChunksOf(Colours(data, width, y0, n, maximum + 1)) != []
  {
    var i :| y0 * width <= i < (y0 + n) * width && i < |data| && 0 <= data[i] <= maximum;
    assert Occurs(data, width, y0, n, data[i]);
    ChunksOfNonEmpty(Colours(data, width, y0, n, maximum + 1), data[i]);
  }

  /** Every chunk ends in a graphics carriage return, so the chunks of a band do too. */
  lemma {:induction false} ChunksEndInReturn(cs: seq<Option<seq<int>>>)
    requires ColoursWellFormed(cs)
    ensures var s := ChunksOf(cs); s == [] || Last(s) == '$'
  {
    if cs != [] {
      ChunksEndInReturn(cs[..|cs| - 1]);
    }
  }

  /** The text of a band ends in a graphics new line. */
  lemma BandEndsInNewLine(data: seq<int>, width: nat, y0: nat, n: nat, maximum: int)
    requires n <= 6 && (y0 + n) * width <= |data|
    requires HasColourUpTo(data, width, y0, n, maximum)
    ensures var s := BandText(data, width, y0, n, maximum); s != [] && Last(s) == '-'
  {
  }

  /** Colours 0..k extend colours 0..k-1 by colour k. */
  lemma ColoursStep(data: seq<int>, width: nat, y0: nat, n: nat, k: nat)
    requires n <= 6 && (y0 + n) * width <= |data|
    ensures ChunksOf(Colours(data, width, y0, n, k + 1)) ==
              ChunksOf(Colours(data, width, y0, n, k)) +
              (if Occurs(data, width, y0, n, k) then Chunk(k, RowMasks(data, width, y0, n, k)) else "")
  {
    var cs := Colours(data, width, y0, n, k + 1);
    assert cs[..k] == Colours(data, width, y0, n, k);
  }

  /** The band text is the chunks of colours 0..maximum with the last character replaced. */
  lemma BandTextIsChunks(data: seq<int>, width: nat, y0: nat, n: nat, maximum: int)
    requires n <= 6 && (y0 + n) * width <= |data|
    requires HasColourUpTo(data, width, y0, n, maximum)
    ensures maximum >= 0
    ensures var c := ChunksOf(Colours(data, width, y0, n, maximum + 1));
            c != [] && BandText(data, width, y0, n, maximum) == c[..|c| - 1] + "-"
  {
    BandHasChunks(data, width, y0, n, maximum);
  }

  /** What a decoder reads back from one chunk: the colour and its row of masks. */
  datatype Entry = Entry(colour: int, masks: seq<int>)

  /** The entries of the colours present in `cs`, trailing empty masks dropped. */
  function EntriesOf(cs: seq<Option<seq<int>>>): (es: seq<Entry>)
  {
    if cs == [] then []
    else
      var lo := EntriesOf(cs[..|cs| - 1]);
      match Last(cs)
      case Some(ms) => lo + [Entry(|cs| - 1, TrimZeros(ms))]
      case None => lo
  }

  /** Decoder: the entries of a sequence of chunks, or None if the text is not one. */
  function DecodeChunks(s: string): Option<seq<Entry>>
    decreases |s|
  {
    if s == [] then Some([])
    else if s[0] != '#' then None
    else
      var t := s[1..];
      var k := SpanDigits(t);
      if k == 0 then None
      else
        var body := t[k..];
        var j := FindChar(body, '$');
        if j == |body| then None
        else match (Expand(body[..j]), DecodeChunks(body[j + 1..]))
          case (Some(ms), Some(es)) => Some([Entry(ParseDigits(t[..k]), ms)] + es)
          case _ => None
  }

  /** Decoder of a band: a sequence of chunks whose last `$` became `-`. */
  function DecodeBand(s: string): Option<seq<Entry>>
  {
    if s != [] && Last(s) == '-' then DecodeChunks(s[..|s| - 1] + "$") else None
  }

  /** One step of the chunk decoder, on a chunk with digits `d` and run text `r`. */
  lemma DecodeChunkStep(d: string, r: string, more: string)
    requires d != [] && AllDigits(d)
    requires forall i | 0 <= i < |r| :: r[i] != '$'
    requires r == [] || !IsDigit(r[0])
    ensures DecodeChunks("#" + d + r + "$" + more) ==
              match (Expand(r), DecodeChunks(more))
              case (Some(ms), Some(es)) => Some([Entry(ParseDigits(d), ms)] + es)
              case _ => None
  {
    ChunkSplit(d, r, more);
    DecodeChunksUnfold("#" + d + r + "$" + more, |d|, |r|);
  }

  /** Where the decoder finds the digits, the run text and the rest of a chunk. */
  lemma ChunkSplit(d: string, r: string, more: string)
    requires d != [] && AllDigits(d)
    requires forall i | 0 <= i < |r| :: r[i] != '$'
    requires r == [] || !IsDigit(r[0])
    ensures var s := "#" + d + r + "$" + more;
      var body := s[1..][|d|..];
      s[0] == '#' && SpanDigits(s[1..]) == |d| && s[1..][..|d|] == d &&
      |r| == FindChar(body, '$') < |body| && body[..|r|] == r && body[|r| + 1..] == more
  {
    var rest := r + "$" + more;
    var s := "#" + d + r + "$" + more;
    var t := s[1..];
    assert t == d + rest by {
      assert s == "#" + (d + rest);
    }
    assert SpanDigits(t) == |d| && t[..|d|] == d && t[|d|..] == rest by {
      assert rest[0] == (if r == [] then '$' else r[0]);
      SpanDigitsPrefix(d, rest);
    }
    assert FindChar(rest, '$') == |r| && rest[..|r|] == r && rest[|r| + 1..] == more by {
      FindCharSplit(r, '$', more);
    }
  }

  lemma DecodeChunksUnfold(s: string, k: nat, j: nat)
    requires s != [] && s[0] == '#'
    requires k == SpanDigits(s[1..]) && k > 0
    requires j == FindChar(s[1..][k..], '$') && j < |s[1..][k..]|
    ensures DecodeChunks(s) ==
              var body := s[1..][k..];
              match (Expand(body[..j]), DecodeChunks(body[j + 1..]))
              case (Some(ms), Some(es)) => Some([Entry(ParseDigits(s[1..][..k]), ms)] + es)
              case _ => None
  {
  }

  /** Decoding a chunk followed by more chunks yields its colour and row first. */
  lemma ChunkDecode(intensity: nat, masks: seq<int>, more: string, es: seq<Entry>)
    requires AllMasks(masks)
    requires DecodeChunks(more) == Some(es)
    ensures DecodeChunks(Chunk(intensity, masks) + more) == Some([Entry(intensity, TrimZeros(masks))] + es)
  {
    var d := Show(intensity);
    var r := RunLength(masks);
    assert Chunk(intensity, masks) + more == "#" + d + r + "$" + more;
    RunLengthHead(masks);
    RunLengthAlphabet(masks);
    DigitsRoundTrip(intensity);
    RunLengthRoundTrip(masks);
    DecodeChunkStep(d, r, more);
  }

  /** Decoding the chunks of `cs` yields exactly their entries. */
  lemma {:induction false} ChunksDecode(cs: seq<Option<seq<int>>>, more: string, es: seq<Entry>)
    requires ColoursWellFormed(cs)
    requires DecodeChunks(more) == Some(es)
    ensures DecodeChunks(ChunksOf(cs) + more) == Some(EntriesOf(cs) + es)
  {
    if cs != [] {
      var init := cs[..|cs| - 1];
      ChunksSnoc(cs, more, es);
      match Last(cs)
      case Some(ms) =>
        ChunkDecode(|cs| - 1, ms, more, es);
        ChunksDecode(init, Chunk(|cs| - 1, ms) + more, [Entry(|cs| - 1, TrimZeros(ms))] + es);
      case None =>
        ChunksDecode(init, more, es);
    } else {
      assert ChunksOf(cs) + more == more && EntriesOf(cs) + es == es;
    }
  }

  /** The chunks and the entries of `cs` are those of all but its last colour, and then the last. */
  lemma ChunksSnoc(cs: seq<Option<seq<int>>>, more: string, es: seq<Entry>)
    requires ColoursWellFormed(cs) && cs != []
    ensures ColoursWellFormed(cs[..|cs| - 1])
    ensures match Last(cs)
      case Some(ms) =>
        && AllMasks(ms)
        && ChunksOf(cs) + more == ChunksOf(cs[..|cs| - 1]) + (Chunk(|cs| - 1, ms) + more)
        && EntriesOf(cs) + es == EntriesOf(cs[..|cs| - 1]) + ([Entry(|cs| - 1, TrimZeros(ms))] + es)
      case None =>
        && ChunksOf(cs) + more == ChunksOf(cs[..|cs| - 1]) + more
        && EntriesOf(cs) + es == EntriesOf(cs[..|cs| - 1]) + es
  {
    var init := cs[..|cs| - 1];
    assert ColoursWellFormed(init);
    match Last(cs)
    case Some(ms) =>
      assert ChunksOf(cs) == ChunksOf(init) + Chunk(|cs| - 1, ms);
      Associate(ChunksOf(init), Chunk(|cs| - 1, ms), more);
      Associate(EntriesOf(init), [Entry(|cs| - 1, TrimZeros(ms))], es);
    case None =>
  }

  /** Decoding the chunks of `cs` with their last `$` turned into `-` yields their entries. */
  lemma ChunksBandDecode(cs: seq<Option<seq<int>>>)
    requires ColoursWellFormed(cs) && ChunksOf(cs) != []
    ensures var c := ChunksOf(cs); DecodeBand(c[..|c| - 1] + "-") == Some(EntriesOf(cs))
  {
    var c := ChunksOf(cs);
    ChunksEndInReturn(cs);
    ChunksDecode(cs, "", []);
    assert c + "" == c && EntriesOf(cs) + [] == EntriesOf(cs);
    ReturnToNewLine(c);
  }

  /** A text ending in `$` with that `$` turned into `-` decodes as a band as the text decodes as chunks. */
  lemma ReturnToNewLine(c: string)
    requires c != [] && Last(c) == '$'
    ensures DecodeBand(c[..|c| - 1] + "-") == DecodeChunks(c)
  {
    var s := c[..|c| - 1] + "-";
    assert s != [] && Last(s) == '-';
    assert s[..|s| - 1] + "$" == c;
  }

  /**
   * Round trip of a band: decoding its text yields, for every colour
   * 0..maximum that occurs in it, that colour and its row of masks.
   */
  lemma BandRoundTrip(data: seq<int>, width: nat, y0: nat, n: nat, maximum: int)
    requires n <= 6 && (y0 + n) * width <= |data|
    requires HasColourUpTo(data, width, y0, n, maximum)
    ensures maximum >= 0
    ensures DecodeBand(BandText(data, width, y0, n, maximum)) == Some(EntriesOf(Colours(data, width, y0, n, maximum + 1)))
  {
    BandHasChunks(data, width, y0, n, maximum);
    ChunksBandDecode(Colours(data, width, y0, n, maximum + 1));
  }

  /**
   * The entries of `cs` list exactly the colours present in it, in strictly
   * ascending order, each with its row of masks.
   */
  lemma {:induction false} EntriesOfColours(cs: seq<Option<seq<int>>>)
    ensures var es := EntriesOf(cs);
            && (forall c :: (exists e | e in es :: e.colour == c) <==> 0 <= c < |cs| && cs[c].Some?)
            && (forall i, j | 0 <= i < j < |es| :: es[i].colour < es[j].colour)
            && (forall e | e in es :: 0 <= e.colour < |cs| && cs[e.colour].Some? && e.masks == TrimZeros(cs[e.colour].value))
  {
    EntriesPresent(cs);
    EntriesAscending(cs);
    EntriesMasks(cs);
  }

  /** A colour has an entry exactly when it is present. */
  lemma EntriesPresent(cs: seq<Option<seq<int>>>)
    ensures forall c :: (exists e | e in EntriesOf(cs) :: e.colour == c) <==> 0 <= c < |cs| && cs[c].Some?
  {
    EntriesMasks(cs);
    EntriesComplete(cs);
  }

  /** Every colour present has an entry. */
  lemma {:induction false} EntriesComplete(cs: seq<Option<seq<int>>>)
    ensures forall c | 0 <= c < |cs| && cs[c].Some? :: exists e | e in EntriesOf(cs) :: e.colour == c
  {
    if cs != [] {
      var init := cs[..|cs| - 1];
      var lo, es := EntriesOf(init), EntriesOf(cs);
      EntriesComplete(init);
      assert forall e | e in lo :: e in es by {
        match Last(cs)
        case Some(ms) =>
          assert es == lo + [Entry(|cs| - 1, TrimZeros(ms))];
        case None =>
      }
      forall c | 0 <= c < |cs| && cs[c].Some?
        ensures exists e | e in es :: e.colour == c
      {
        if c < |init| {
          assert init[c] == cs[c];
          var e :| e in lo && e.colour == c;
          assert e in es;
        } else {
          var e := Entry(|cs| - 1, TrimZeros(cs[c].value));
          assert es == lo + [e];
          assert e in es;
        }
      }
    }
  }

  /** Each entry holds its colour's masks without their trailing zeros. */
  lemma {:induction false} EntriesMasks(cs: seq<Option<seq<int>>>)
    ensures forall e | e in EntriesOf(cs) :: 0 <= e.colour < |cs| && cs[e.colour].Some? && e.masks == TrimZeros(cs[e.colour].value)
  {
    if cs != [] {
      var init := cs[..|cs| - 1];
      EntriesMasks(init);
      assert forall i | 0 <= i < |init| :: init[i] == cs[i];
      match Last(cs)
      case Some(ms) =>
        assert EntriesOf(cs) == EntriesOf(init) + [Entry(|cs| - 1, TrimZeros(ms))];
      case None =>
    }
  }

  predicate Ascending(es: seq<Entry>) {
    forall i, j | 0 <= i < j < |es| :: es[i].colour < es[j].colour
  }

  /** The entries come in ascending order of colour. */
  lemma {:induction false} EntriesAscending(cs: seq<Option<seq<int>>>)
    ensures Ascending(EntriesOf(cs))
  {
    if cs != [] {
      var init := cs[..|cs| - 1];
      var lo := EntriesOf(init);
      EntriesAscending(init);
      EntriesMasks(init);
      match Last(cs)
      case Some(ms) =>
        var last := Entry(|cs| - 1, TrimZeros(ms));
        var es := lo + [last];
        assert EntriesOf(cs) == es;
        forall i, j | 0 <= i < j < |es|
          ensures es[i].colour < es[j].colour
        {
          assert es[i] == lo[i] && lo[i] in lo;
          if j < |lo| {
            assert es[j] == lo[j];
          } else {
            assert es[j] == last;
          }
        }
      case None =>
    }
  }
}
