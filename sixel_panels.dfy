/**
 * The panel-grid sixel encoder (the template `Encoder<gx, gy>`): a grid of
 * gx by gy panels, each xDim by yDim pixels, laid out side by side in one
 * buffer of `uint8_t` colour indices. The buffer has gx * xDim pixels per
 * row and gy * yDim rows rounded up to a multiple of six, so that every
 * band it encodes has six whole rows. Pixels are written into the panel
 * selected by `set_panel`; the overlay drawers write the crosshairs,
 * bounding box and colour bar colours straight into the buffer.
 */
module SixelPanels {
  import opened VtControl
  import opened SixelRuns
  import opened SixelFormat
  import opened SixelColourMap
  import opened SixelBand
  import opened SixelImage

  /** The sizes of the grid: the template arguments and the panel size. */
  datatype Grid = Grid(gx: nat, gy: nat, xDim: nat, yDim: nat) {
    /** Pixels per buffer row: gx panels side by side. */
    function Width(): nat { gx * xDim }
    /** Rows of panel pixels: gy panels one above the other. */
    function Height(): nat { gy * yDim }
    /** The buffer size gx * x_dim * 6 * ceil(gy * y_dim / 6). */
    function Size(): nat { Width() * RoundUp6(Height()) }
  }

  /** Pixel (x, y) of panel (gi, gj). */
  datatype Cell = Cell(gi: nat, gj: nat, x: nat, y: nat)

  predicate InGrid(g: Grid, c: Cell) {
    c.gi < g.gx && c.gj < g.gy && c.x < g.xDim && c.y < g.yDim
  }

  /** The buffer address of a pixel of a panel, as `mapxy` computes it. */
  function Address(g: Grid, c: Cell): int {
    c.x + g.xDim * (c.gi + g.gx * (c.y + g.yDim * c.gj))
  }

  /** The pixel at a buffer address below Width * Height: the inverse of `mapxy`. */
  function CellAt(g: Grid, i: nat): (c: Cell)
    requires g.gx > 0 && g.xDim > 0 && g.yDim > 0
  {
    MulMono(1, g.gx, g.xDim);
    var column, row := Remainder(i, g.Width()), Quotient(i, g.Width());
    Cell(Quotient(column, g.xDim), Quotient(row, g.yDim), Remainder(column, g.xDim), Remainder(row, g.yDim))
  }

  /** Division of a natural number by a positive one. */
  function Quotient(a: nat, d: nat): (q: nat)
    requires d > 0
  {
    a / d
  }

  function Remainder(a: nat, d: nat): (r: nat)
    requires d > 0
  {
    a % d
  }

  /** Division by a positive number is determined by quotient and remainder. */
  lemma DivMod(a: int, d: int, q: int, r: int)
    requires d > 0 && 0 <= r < d && a == q * d + r
    ensures a / d == q && a % d == r
  {
    var q0, r0 := a / d, a % d;
    var k := q - q0;
    assert k * d == r0 - r;
    if k >= 1 {
      MulMono(1, k, d);
    } else if k <= -1 {
      MulMono(k, -1, d);
    }
  }

  /** A number below n * d has a quotient by d below n. */
  lemma QuotientBelow(a: nat, d: nat, n: nat)
    requires d > 0 && a < n * d
    ensures a / d < n
  {
    var q := a / d;
    assert q * d <= a;
    if q >= n {
      MulMono(n, q, d);
    }
  }

  /** Positions along a row or down a column: `panel * size + offset` stays below `count * size`. */
  lemma Interleave(panel: nat, count: nat, size: nat, offset: nat)
    requires panel < count && offset < size
    ensures panel * size + offset < count * size
  {
    MulMono(panel + 1, count, size);
  }

  /**
   * `mapxy` is row-major over the whole buffer: the buffer column of a pixel
   * is gi * xDim + x, its buffer row gj * yDim + y.
   */
  lemma AddressRowMajor(g: Grid, c: Cell)
    requires InGrid(g, c)
    ensures c.gi * g.xDim + c.x < g.Width() && c.gj * g.yDim + c.y < g.Height()
    ensures Address(g, c) == (c.gi * g.xDim + c.x) + g.Width() * (c.gj * g.yDim + c.y)
  {
    Interleave(c.gi, g.gx, g.xDim, c.x);
    Interleave(c.gj, g.gy, g.yDim, c.y);
    calc {
      Address(g, c);
      c.x + g.xDim * c.gi + g.xDim * (g.gx * (c.y + g.yDim * c.gj));
      { assert g.xDim * (g.gx * (c.y + g.yDim * c.gj)) == (g.gx * g.xDim) * (c.gj * g.yDim + c.y); }
      (c.gi * g.xDim + c.x) + g.Width() * (c.gj * g.yDim + c.y);
    }
  }

  /** Every pixel of every panel has an address inside the buffer. */
  lemma AddressInBuffer(g: Grid, c: Cell)
    requires InGrid(g, c)
    ensures 0 <= Address(g, c) < g.Width() * g.Height() <= g.Size()
  {
    AddressRowMajor(g, c);
    var column, row := c.gi * g.xDim + c.x, c.gj * g.yDim + c.y;
    Interleave(row, g.Height(), g.Width(), column);
    assert row * g.Width() + column == Address(g, c);
    MulMono(g.Height(), RoundUp6(g.Height()), g.Width());
  }

  /** Reading the pixel back from its address gives the pixel: `mapxy` has an inverse. */
  lemma CellAtAddress(g: Grid, c: Cell)
    requires InGrid(g, c)
    ensures CellAt(g, Address(g, c)) == c
  {
    AddressRowMajor(g, c);
    var column, row := c.gi * g.xDim + c.x, c.gj * g.yDim + c.y;
    DivMod(Address(g, c), g.Width(), row, column);
    DivMod(column, g.xDim, c.gi, c.x);
    DivMod(row, g.yDim, c.gj, c.y);
  }

  /** Every address below Width * Height is the address of exactly the pixel read back from it. */
  lemma AddressCellAt(g: Grid, i: nat)
    requires g.gx > 0 && g.xDim > 0 && g.yDim > 0 && i < g.Width() * g.Height()
    ensures InGrid(g, CellAt(g, i)) && Address(g, CellAt(g, i)) == i
  {
    var c := CellAt(g, i);
    var column, row := i % g.Width(), i / g.Width();
    assert InGrid(g, c) by {
      QuotientBelow(i, g.Width(), g.Height());
      QuotientBelow(row, g.yDim, g.gy);
      QuotientBelow(column, g.xDim, g.gx);
    }
    assert i == column + g.Width() * row by {
      Recompose(i, g.Width());
    }
    assert row == c.gj * g.yDim + c.y && column == c.gi * g.xDim + c.x by {
      Recompose(row, g.yDim);
      Recompose(column, g.xDim);
    }
    AddressRowMajor(g, c);
  }

  /** A number is its remainder plus the divisor times its quotient. */
  lemma Recompose(a: nat, d: nat)
    requires d > 0
    ensures a == a % d + d * (a / d) && a == (a / d) * d + a % d
  {
  }

  /** `mapxy` is injective: distinct pixels have distinct addresses. */
  lemma AddressInjective(g: Grid, c: Cell, d: Cell)
    requires InGrid(g, c) && InGrid(g, d) && Address(g, c) == Address(g, d)
    ensures c == d
  {
    CellAtAddress(g, c);
    CellAtAddress(g, d);
  }

  /** The panel to the right holds the same pixel xDim addresses further on. */
  lemma NextPanel(g: Grid, c: Cell)
    ensures Address(g, c.(gi := c.gi + 1)) == Address(g, c) + g.xDim
  {
  }

  /** `set_panel`: panel k counts left to right along the top row of panels, then the next row. */
  lemma PanelNumbering(gx: nat, gy: nat, k: nat)
    requires 0 < gx && k < gx * gy
    ensures k % gx < gx && k / gx < gy
    ensures k == k / gx * gx + k % gx
  {
    QuotientBelow(k, gx, gy);
  }

  /** A cell of the `uint8_t` buffer keeps the low eight bits of the value written to it. */
  function Byte(v: int): (b: int)
    ensures 0 <= b < 256
    ensures 0 <= v ==> b <= v
    ensures v < 256 ==> b == v || v < 0
  {
    v % 256
  }

  /** C++ integer division, which truncates toward zero. */
  function Quot(a: int, b: int): (q: int)
    requires b > 0
    ensures a >= 0 ==> q == a / b
    ensures a < 0 ==> q == -((-a) / b)
  {
    if a >= 0 then a / b else -((-a) / b)
  }

  /** Address i is a pixel of panel (gi, gj), not a padding cell or a pixel of another panel. */
  predicate InPanel(g: Grid, gi: nat, gj: nat, i: int) {
    g.gx > 0 && g.xDim > 0 && g.yDim > 0 && 0 <= i < g.Width() * g.Height()
    && CellAt(g, i).gi == gi && CellAt(g, i).gj == gj
  }

  /** Address i lies on row y0 or column x0 of panel (gi, gj). */
  predicate OnCrosshairs(g: Grid, gi: nat, gj: nat, x0: nat, y0: nat, i: int) {
    InPanel(g, gi, gj, i) && (CellAt(g, i).y == y0 || CellAt(g, i).x == x0)
  }

  /** Address i lies on the outermost rows or columns of panel (gi, gj). */
  predicate OnBorder(g: Grid, gi: nat, gj: nat, i: int) {
    InPanel(g, gi, gj, i)
    && var c := CellAt(g, i);
    c.y == 0 || c.y == g.yDim - 1 || c.x == 0 || c.x == g.xDim - 1
  }

  /** The colour bar height and width between its borders. */
  const BarHeight := 90
  const BarWidth := 14

  /**
   * The colour bar box: 4 pixels in from the bottom right corner of a panel,
   * BarHeight + 2 rows by BarWidth + 2 columns, drawn only when the panel is
   * at least twice as wide and twice as high.
   */
  predicate InColourbar(g: Grid, c: Cell) {
    g.xDim >= 2 * BarWidth && g.yDim >= 2 * BarHeight
    && g.xDim - 4 - BarWidth - 1 <= c.x <= g.xDim - 4
    && g.yDim - 4 - BarHeight - 1 <= c.y <= g.yDim - 4
  }

  /**
   * The colour of a cell of the colour bar: the crosshair colour on the
   * border, inside it the data level (BarHeight - k) * range / BarHeight on
   * the k-th row below the top border.
   */
  function ColourbarColour(g: Grid, cm: ColourMap, c: Cell): int
    requires InColourbar(g, c)
  {
    var y1, x1 := g.yDim - 4, g.xDim - 4;
    var y0, x0 := y1 - BarHeight - 1, x1 - BarWidth - 1;
    if c.y == y0 || c.y == y1 || c.x == x0 || c.x == x1 then cm.Crosshairs()
    else Quot((BarHeight - (c.y - y0)) * cm.Range(), BarHeight)
  }

  /**
   * Inside its border the colour bar shows data levels only, the largest
   * below the top border and level 0 above the bottom border, never
   * increasing downwards.
   */
  lemma ColourbarLevels(g: Grid, cm: ColourMap, c: Cell)
    requires cm.numColours >= 0 && InColourbar(g, c)
    ensures var v := ColourbarColour(g, cm, c);
      v == cm.Crosshairs() || 0 <= v <= cm.Range()
    ensures c.y == g.yDim - 5 && c.x != g.xDim - 4 && c.x != g.xDim - 4 - BarWidth - 1 ==> ColourbarColour(g, cm, c) == 0
    ensures c.y + 1 < g.yDim - 4 && c.y != g.yDim - 4 - BarHeight - 1 && InColourbar(g, c.(y := c.y + 1))
            && c.x != g.xDim - 4 && c.x != g.xDim - 4 - BarWidth - 1
            ==> ColourbarColour(g, cm, c.(y := c.y + 1)) <= ColourbarColour(g, cm, c)
  {
    var y0 := g.yDim - 4 - BarHeight - 1;
    var k := c.y - y0;
    if 0 < k < BarHeight + 1 {
      MulMono(BarHeight - k, BarHeight, cm.Range());
      if k < BarHeight {
        MulMono(BarHeight - k - 1, BarHeight - k, cm.Range());
        DivMono((BarHeight - k - 1) * cm.Range(), (BarHeight - k) * cm.Range(), BarHeight);
      }
    }
  }

  /** Division by a positive number is monotonic. */
  lemma DivMono(a: int, b: int, d: int)
    requires d > 0 && a <= b
    ensures a / d <= b / d
  {
    if a / d > b / d {
      assert (b / d + 1) * d == b / d * d + d;
      MulMono(b / d + 1, a / d, d);
    }
  }

  /**
   * The buffer as the template encoder holds it. Every cell holds a colour
   * index 0..maximum: the data levels a rescaled value can take and the
   * three overlay colours, so every band holds some colour and its text has
   * a last character to turn into the graphics new line.
   */
  class Encoder {
    const grid: Grid
    /** The panel selected by `set_panel`. */
    var gi: nat
    var gj: nat
    const data: array<int>
    const colourmap: ColourMap
    const runs: RunBuffer

    ghost predicate Valid()
      reads this, data
    {
      grid.gx > 0 && grid.gy > 0 && colourmap.numColours >= 0
      && gi < grid.gx && gj < grid.gy && data.Length == grid.Size()
      && forall i | 0 <= i < data.Length :: 0 <= data[i] <= colourmap.Maximum()
    }

    constructor (gx: nat, gy: nat, xDim: nat, yDim: nat, colourmap: ColourMap)
      requires gx > 0 && gy > 0 && colourmap.numColours >= 0
      ensures Valid() && fresh(data) && fresh(runs)
      ensures grid == Grid(gx, gy, xDim, yDim) && this.colourmap == colourmap && gi == 0 && gj == 0
      ensures forall i | 0 <= i < data.Length :: data[i] == 0
    {
      grid := Grid(gx, gy, xDim, yDim);
      gi, gj := 0, 0;
      data := new int[gx * xDim * RoundUp6(gy * yDim)](_ => 0);
      this.colourmap := colourmap;
      runs := new RunBuffer();
    }

    /** `set_panel`: select panel k of the grid, counted row by row. */
    method SetPanel(k: nat)
      requires Valid() && k < grid.gx * grid.gy
      modifies this
      ensures Valid()
      ensures k == gj * grid.gx + gi
    {
      PanelNumbering(grid.gx, grid.gy, k);
      gi := k % grid.gx;
      gj := k / grid.gx;
    }

    /** `mapxy`: the address of pixel (x, y) of the selected panel. */
    function MapXY(x: nat, y: nat): (i: nat)
      reads this
      requires grid.gx > 0 && gi < grid.gx && gj < grid.gy && x < grid.xDim && y < grid.yDim
      ensures i < grid.Width() * grid.Height() <= grid.Size()
      ensures InPanel(grid, gi, gj, i) && CellAt(grid, i) == Cell(gi, gj, x, y)
    {
      var c := Cell(gi, gj, x, y);
      AddressInBuffer(grid, c);
      CellAtAddress(grid, c);
      Address(grid, c)
    }

    /**
     * `operator()`: write the data level of a value to pixel (x, y) of the
     * selected panel. `val` is the rounded value `rescale` clamps.
     */
    method Set(x: nat, y: nat, val: int)
      requires Valid() && x < grid.xDim && y < grid.yDim
      modifies data
      ensures Valid()
      ensures data[..] == old(data[..])[MapXY(x, y) := Byte(colourmap.Rescale(val))]
      ensures 0 <= data[MapXY(x, y)] <= colourmap.Range()
    {
      data[MapXY(x, y)] := Byte(colourmap.Rescale(val));
    }

    /** `draw_crosshairs`: the crosshair colour along row y0 and column x0 of the selected panel. */
    method DrawCrosshairs(x0: nat, y0: nat)
      requires Valid() && x0 < grid.xDim && y0 < grid.yDim
      modifies data
      ensures Valid()
      ensures forall i | 0 <= i < data.Length ::
        data[i] == if OnCrosshairs(grid, gi, gj, x0, y0, i) then Byte(colourmap.Crosshairs()) else old(data[i])
    {
      var colour := Byte(colourmap.Crosshairs());
      for x := 0 to grid.xDim
        invariant Valid()
        invariant forall i | 0 <= i < data.Length ::
          data[i] == if InPanel(grid, gi, gj, i) && CellAt(grid, i).y == y0 && CellAt(grid, i).x < x
                     then colour else old(data[i])
      {
        Paint(x, y0, colour);
      }
      for y := 0 to grid.yDim
        invariant Valid()
        invariant forall i | 0 <= i < data.Length ::
          data[i] == if InPanel(grid, gi, gj, i) && (CellAt(grid, i).y == y0 || (CellAt(grid, i).x == x0 && CellAt(grid, i).y < y))
                     then colour else old(data[i])
      {
        Paint(x0, y, colour);
      }
    }

    /**
     * `draw_boundingbox`: the bounding box colour, highlighted or not, along
     * the outermost rows and columns of the selected panel. A panel with
     * pixels has at least one row and one column.
     */
    method DrawBoundingbox(highlight: bool)
      requires Valid() && (grid.xDim == 0 <==> grid.yDim == 0)
      modifies data
      ensures Valid()
      ensures forall i | 0 <= i < data.Length ::
        data[i] == if OnBorder(grid, gi, gj, i) then Byte(colourmap.Boundingbox(highlight)) else old(data[i])
    {
      var colour := Byte(colourmap.Boundingbox(highlight));
      for x := 0 to grid.xDim
        invariant Valid()
        invariant forall i | 0 <= i < data.Length ::
          data[i] == if InPanel(grid, gi, gj, i) && (CellAt(grid, i).y == 0 || CellAt(grid, i).y == grid.yDim - 1)
                        && CellAt(grid, i).x < x
                     then colour else old(data[i])
      {
        Paint(x, 0, colour);
        Paint(x, grid.yDim - 1, colour);
      }
      for y := 0 to grid.yDim
        invariant Valid()
        invariant forall i | 0 <= i < data.Length ::
          data[i] == if InPanel(grid, gi, gj, i)
                        && (CellAt(grid, i).y == 0 || CellAt(grid, i).y == grid.yDim - 1
                            || ((CellAt(grid, i).x == 0 || CellAt(grid, i).x == grid.xDim - 1) && CellAt(grid, i).y < y))
                     then colour else old(data[i])
      {
        Paint(0, y, colour);
        Paint(grid.xDim - 1, y, colour);
      }
    }

    /** One pixel of the selected panel set to a colour, and no other. */
    method Paint(x: nat, y: nat, colour: int)
      requires Valid() && x < grid.xDim && y < grid.yDim && 0 <= colour <= colourmap.Maximum()
      modifies data
      ensures Valid()
      ensures forall i | 0 <= i < data.Length ::
        data[i] == if InPanel(grid, gi, gj, i) && CellAt(grid, i).x == x && CellAt(grid, i).y == y
                   then colour else old(data[i])
    {
      var a := MapXY(x, y);
      data[a] := colour;
      OnlyAddress(grid, gi, gj, x, y, a);
    }

    /**
     * `draw_colourbar`: the colour bar box in the bottom right corner of the
     * selected panel, its border in the crosshair colour and its inside
     * graded from the largest data level at the top to 0 at the bottom.
     * Nothing is drawn in a panel less than twice the bar's size.
     */
    method DrawColourbar()
      requires Valid()
      modifies data
      ensures Valid()
      ensures forall i | 0 <= i < data.Length ::
        data[i] == if InPanel(grid, gi, gj, i) && InColourbar(grid, CellAt(grid, i))
                   then Byte(ColourbarColour(grid, colourmap, CellAt(grid, i))) else old(data[i])
    {
      var h, w := BarHeight, BarWidth;
      if grid.xDim < 2 * w || grid.yDim < 2 * h {
        return;
      }
      var y1, x1 := grid.yDim - 4, grid.xDim - 4;
      var y0, x0 := y1 - h - 1, x1 - w - 1;
      for y := y0 to y1 + 1
        invariant Valid()
        invariant forall i | 0 <= i < data.Length ::
          data[i] == if InPanel(grid, gi, gj, i) && InColourbar(grid, CellAt(grid, i)) && CellAt(grid, i).y < y
                     then Byte(ColourbarColour(grid, colourmap, CellAt(grid, i))) else old(data[i])
      {
        var val := Quot((h - (y - y0)) * colourmap.Range(), h);
        for x := x0 to x1 + 1
          invariant Valid()
          invariant forall i | 0 <= i < data.Length ::
            data[i] == if InPanel(grid, gi, gj, i) && InColourbar(grid, CellAt(grid, i))
                          && (CellAt(grid, i).y < y || (CellAt(grid, i).y == y && CellAt(grid, i).x < x))
                       then Byte(ColourbarColour(grid, colourmap, CellAt(grid, i))) else old(data[i])
        {
          var a := MapXY(x, y);
          ColourbarLevels(grid, colourmap, Cell(gi, gj, x, y));
          data[a] := Byte(if y == y0 || y == y1 || x == x0 || x == x1 then colourmap.Crosshairs() else val);
          OnlyAddress(grid, gi, gj, x, y, a);
        }
      }
    }

    /** `encode (y0, intensity)`: the chunk of one colour of the six rows from row y0. */
    method EncodeIntensity(y0: nat, intensity: int) returns (out: string)
      requires Valid() && y0 % 6 == 0 && y0 < grid.Height()
      modifies runs
      ensures (y0 + 6) * grid.Width() <= data.Length
      ensures out == Chunk(intensity, RowMasks(data[..], grid.Width(), y0, 6, intensity))
    {
      BandInBuffer(grid, y0);
      out := EncodeColour(data[..], grid.Width(), y0, 6, intensity, runs);
    }

    /**
     * `encode (y0)`: the text of the six rows from row y0. Every band of
     * the buffer holds a colour, so the text has a last character to turn
     * into the graphics new line.
     */
    method EncodeBand(y0: nat) returns (out: string)
      requires Valid() && (grid.yDim > 0 ==> grid.xDim > 0) && y0 % 6 == 0 && y0 < grid.Height()
      modifies runs
      ensures (y0 + 6) * grid.Width() <= data.Length && HasColourUpTo(data[..], grid.Width(), y0, 6, colourmap.Maximum())
      ensures out == BandText(data[..], grid.Width(), y0, 6, colourmap.Maximum())
    {
      BandInBuffer(grid, y0);
      BandColoured(data[..], grid.Width(), y0, colourmap.Maximum());
      out := EncodeRows(data[..], grid.Width(), y0, 6, colourmap.Maximum(), runs);
    }

    /**
     * `write`: the sixel start, the colour map's palette, the bands of all
     * gy * yDim rows from the top, and the sixel end.
     */
    method Write() returns (out: string)
      requires Valid() && (grid.yDim > 0 ==> grid.xDim > 0)
      modifies runs
      ensures EveryBandColoured(data[..], grid.Width(), RoundUp6(grid.Height()), colourmap.Maximum())
      ensures out == SixelStart + colourmap.spec
                     + Bands(data[..], grid.Width(), RoundUp6(grid.Height()), colourmap.Maximum(), RoundUp6(grid.Height()))
                     + SixelStop
    {
      AllBandsColoured(data[..], grid.Width(), RoundUp6(grid.Height()), colourmap.Maximum());
      var bands := EncodeBands(data[..], grid.Width(), grid.Height(), colourmap.Maximum(), runs);
      out := SixelStart + colourmap.spec + bands + SixelStop;
    }
  }

  /**
   * The band loop of `write`: `encode (y)` for y = 0, 6, 12, ... below
   * `height`, each band six rows of the buffer padded to a multiple of six
   * rows.
   */
  method EncodeBands(pixels: seq<int>, width: nat, height: nat, maximum: int, runs: RunBuffer) returns (out: string)
    requires |pixels| == width * RoundUp6(height)
    requires EveryBandColoured(pixels, width, RoundUp6(height), maximum)
    modifies runs
    ensures out == Bands(pixels, width, RoundUp6(height), maximum, RoundUp6(height))
  {
    out := "";
    var y := 0;
    while y < height
      invariant y % 6 == 0 && y <= RoundUp6(height)
      invariant out == Bands(pixels, width, RoundUp6(height), maximum, y)
    {
      var band := EncodeBandAt(pixels, width, height, maximum, y, runs);
      out := out + band;
      NextBand(y);
      y := y + 6;
    }
    SameMultiple(y, RoundUp6(height));
  }

  /** One turn of the band loop: the six rows from y extend the bands above y. */
  method EncodeBandAt(pixels: seq<int>, width: nat, height: nat, maximum: int, y: nat, runs: RunBuffer)
    returns (band: string)
    requires |pixels| == width * RoundUp6(height) && y % 6 == 0 && y < height
    requires EveryBandColoured(pixels, width, RoundUp6(height), maximum)
    modifies runs
    ensures y + 6 <= RoundUp6(height)
    ensures Bands(pixels, width, RoundUp6(height), maximum, y + 6) == Bands(pixels, width, RoundUp6(height), maximum, y) + band
  {
    BandInBuffer(Grid(1, 1, width, height), y);
    assert HasColourUpTo(pixels, width, y, BandRows(RoundUp6(height), y), maximum);
    band := EncodeRows(pixels, width, y, 6, maximum, runs);
  }

  /** No address of a panel other than `a` holds pixel (x, y) of that panel. */
  lemma OnlyAddress(g: Grid, gi: nat, gj: nat, x: nat, y: nat, a: int)
    requires InPanel(g, gi, gj, a) && CellAt(g, a) == Cell(gi, gj, x, y)
    ensures forall i | InPanel(g, gi, gj, i) && CellAt(g, i).x == x && CellAt(g, i).y == y :: i == a
  {
    forall i | InPanel(g, gi, gj, i) && CellAt(g, i).x == x && CellAt(g, i).y == y
      ensures i == a
    {
      AddressCellAt(g, i);
      AddressCellAt(g, a);
    }
  }

  /** The six rows of a band that starts above gy * yDim lie inside the padded buffer. */
  lemma BandInBuffer(g: Grid, y0: nat)
    requires y0 % 6 == 0 && y0 < g.Height()
    ensures y0 + 6 <= RoundUp6(g.Height()) && (y0 + 6) * g.Width() <= g.Size()
  {
    MulMono(y0 + 6, RoundUp6(g.Height()), g.Width());
  }

  /** A buffer whose every cell is a colour 0..maximum has a colour in the six rows from y0. */
  lemma BandColoured(pixels: seq<int>, width: nat, y0: nat, maximum: int)
    requires width > 0 && (y0 + 6) * width <= |pixels|
    requires forall i | 0 <= i < |pixels| :: 0 <= pixels[i] <= maximum
    ensures HasColourUpTo(pixels, width, y0, 6, maximum)
  {
    MulMono(y0 + 1, y0 + 6, width);
    assert 0 <= pixels[y0 * width] <= maximum;
  }

  /** So every band of such a buffer of a multiple of six rows holds a colour. */
  lemma AllBandsColoured(pixels: seq<int>, width: nat, rows: nat, maximum: int)
    requires |pixels| == width * rows && rows % 6 == 0 && (rows > 0 ==> width > 0)
    requires forall i | 0 <= i < |pixels| :: 0 <= pixels[i] <= maximum
    ensures EveryBandColoured(pixels, width, rows, maximum)
  {
    forall y0 | 0 <= y0 < rows && y0 % 6 == 0
      ensures HasColourUpTo(pixels, width, y0, BandRows(rows, y0), maximum)
    {
      MulMono(y0 + 6, rows, width);
      BandColoured(pixels, width, y0, maximum);
    }
  }

  /** Two multiples of six less than six apart are equal. */
  lemma SameMultiple(a: int, b: int)
    requires a % 6 == 0 && b % 6 == 0 && a <= b < a + 6
    ensures a == b
  {
    DivMod(b, 6, a / 6, b - a);
  }

  /** The next band starts at a multiple of six too. */
  lemma NextBand(y: int)
    requires y % 6 == 0
    ensures (y + 6) % 6 == 0
  {
  }
}
