/**
 * The palette side of the sixel output: the colour definitions a sixel
 * image starts with, the index layout of the viewer's colour map (data
 * levels 0..num_colours, then three overlay colours) and the clamp that
 * turns a rescaled value into a data level.
 *
 * A colour definition is `#index;2;r;g;b`: colour register `index` set in
 * the RGB colour space (coordinate system 2) with red, green and blue in
 * percent (DEC sixel graphics, colour introducer `#`).
 */
module SixelColourMap {
  import opened Wrappers
  import opened DecimalText

  /** Red, green and blue in percent, already rounded to integers. */
  datatype Rgb = Rgb(r: int, g: int, b: int)

  /** One colour register definition. */
  datatype Definition = Definition(index: int, colour: Rgb)

  /** `#index;2;r;g;b`, each number in decimal. */
  function DefinitionText(d: Definition): (s: string)
    ensures |s| >= 1 && s[0] == '#'
  {
    "#" + Show(d.index) + ";2;" + Show(d.colour.r) + ";" + Show(d.colour.g) + ";" + Show(d.colour.b)
  }

  /** The text of a list of definitions, one after the other. */
  function PaletteText(ds: seq<Definition>): string
  {
    if ds == [] then "" else PaletteText(ds[..|ds| - 1]) + DefinitionText(ds[|ds| - 1])
  }

  lemma PaletteTextSnoc(ds: seq<Definition>, d: Definition)
    ensures PaletteText(ds + [d]) == PaletteText(ds) + DefinitionText(d)
  {
    assert (ds + [d])[..|ds|] == ds;
  }

  /**
   * The definitions of `count` levels of a colour scale, level n in
   * register base + n. `colour (n)` is level n of the scale in percent; the
   * scale itself is a floating-point function of the colour-map library.
   */
  function LevelDefinitions(base: int, colour: int -> Rgb, count: nat): (ds: seq<Definition>)
    ensures |ds| == count
    ensures forall n | 0 <= n < count :: ds[n] == Definition(base + n, colour(n))
  {
    seq(count, n => Definition(base + n, colour(n)))
  }

  /** The number of levels 0..ncolours; none when ncolours is negative. */
  function LevelCount(ncolours: int): nat {
    if ncolours >= 0 then ncolours + 1 else 0
  }

  lemma LevelDefinitionsSnoc(base: int, colour: int -> Rgb, n: nat)
    ensures LevelDefinitions(base, colour, n + 1) == LevelDefinitions(base, colour, n) + [Definition(base + n, colour(n))]
  {
    assert LevelDefinitions(base, colour, n + 1)[..n] == LevelDefinitions(base, colour, n);
  }

  /** The text of n + 1 levels is the text of n levels and the definition of level n. */
  lemma LevelTextSnoc(base: int, colour: int -> Rgb, n: nat)
    ensures PaletteText(LevelDefinitions(base, colour, n + 1)) ==
              PaletteText(LevelDefinitions(base, colour, n)) + DefinitionText(Definition(base + n, colour(n)))
  {
    LevelDefinitionsSnoc(base, colour, n);
    PaletteTextSnoc(LevelDefinitions(base, colour, n), Definition(base + n, colour(n)));
  }

  /** Index of the last `c` in `s`, or -1 when there is none. */
  function LastIndex(s: string, c: char): (k: int)
    ensures -1 <= k < |s| && (k >= 0 ==> s[k] == c)
    ensures forall i | k < i < |s| :: s[i] != c
  {
    if s == [] then -1
    else if s[|s| - 1] == c then |s| - 1
    else LastIndex(s[..|s| - 1], c)
  }

  lemma {:induction false} LastIndexSplit(a: string, c: char, b: string)
    requires Free(b, c)
    ensures LastIndex(a + [c] + b, c) == |a|
    decreases |b|
  {
    if b != [] {
      assert (a + [c] + b)[..|a + [c] + b| - 1] == a + [c] + b[..|b| - 1];
      LastIndexSplit(a, c, b[..|b| - 1]);
    }
  }

  /** The ';'-separated fields of `s`. */
  function Fields(s: string): (fs: seq<string>)
    ensures |fs| >= 1
    decreases |s|
  {
    var k := LastIndex(s, ';');
    if k < 0 then [s] else Fields(s[..k]) + [s[k + 1..]]
  }

  /** Reading one definition `#index;2;r;g;b` back. */
  function ParseDefinition(text: string): Option<Definition> {
    var fs := Fields(text);
    if |fs| != 5 || fs[0] == [] || fs[0][0] != '#' || fs[1] != "2" then None
    else match (ReadParameter(fs[0][1..]), ReadParameter(fs[2]), ReadParameter(fs[3]), ReadParameter(fs[4]))
      case (Some(i), Some(r), Some(g), Some(b)) => Some(Definition(i, Rgb(r, g, b)))
      case _ => None
  }

  /** Reading a palette back: the definitions it holds, or None if it is not a palette. */
  function DecodePalette(s: string): Option<seq<Definition>>
    decreases |s|
  {
    if s == [] then Some([])
    else
      var k := LastIndex(s, '#');
      if k < 0 then None
      else match ParseDefinition(s[k..])
        case None => None
        case Some(d) =>
          match DecodePalette(s[..k])
          case None => None
          case Some(ds) => Some(ds + [d])
  }

  /** A last field with no ';' in it is read back as the last field. */
  lemma FieldsSnoc(x: string, b: string)
    requires Free(b, ';')
    ensures Fields(x + ";" + b) == Fields(x) + [b]
  {
    LastIndexSplit(x, ';', b);
    var s := x + ";" + b;
    assert s[..|x|] == x && s[|x| + 1..] == b;
  }

  /** A text with no ';' in it is one field. */
  lemma FieldsFree(s: string)
    requires Free(s, ';')
    ensures Fields(s) == [s]
  {
  }

  lemma NoSeparator(n: int)
    ensures Free(Show(n), ';') && Free(Show(n), '#')
  {
    ShowAlphabet(n);
  }

  lemma SplitSpace(x: string)
    ensures x + ";2;" == x + ";" + "2" + ";"
  {
  }

  /** Five texts without ';' joined as a definition is joined read back as those five fields. */
  lemma FieldsOfParts(p0: string, r: string, g: string, b: string)
    requires Free(p0, ';') && Free(r, ';') && Free(g, ';') && Free(b, ';')
    ensures Fields(p0 + ";2;" + r + ";" + g + ";" + b) == [p0, "2", r, g, b]
  {
    var p1 := p0 + ";2;" + r;
    FieldsHead(p0, r);
    FieldsSnoc(p1, g);
    FieldsSnoc(p1 + ";" + g, b);
  }

  /** The first three fields of a definition: the index part, the colour space and red. */
  lemma FieldsHead(p0: string, r: string)
    requires Free(p0, ';') && Free(r, ';')
    ensures Fields(p0 + ";2;" + r) == [p0, "2", r]
  {
    FieldsFree(p0);
    FieldsSnoc(p0, "2");
    SplitSpace(p0);
    FieldsSnoc(p0 + ";" + "2", r);
  }

  /** The fields of a definition: `#` and the index, the colour space, red, green, blue. */
  lemma DefinitionFields(d: Definition)
    ensures Fields(DefinitionText(d)) ==
              ["#" + Show(d.index), "2", Show(d.colour.r), Show(d.colour.g), Show(d.colour.b)]
  {
    NoSeparator(d.index);
    NoSeparator(d.colour.r);
    NoSeparator(d.colour.g);
    NoSeparator(d.colour.b);
    FreeAppend("#", Show(d.index), ';');
    FieldsOfParts("#" + Show(d.index), Show(d.colour.r), Show(d.colour.g), Show(d.colour.b));
  }

  /** The text of a definition reads back as that definition. */
  lemma DefinitionRoundTrip(d: Definition)
    ensures ParseDefinition(DefinitionText(d)) == Some(d)
  {
    DefinitionFields(d);
    FieldsDefinition(DefinitionText(d), d);
  }

  /** A text whose fields are those of a definition parses as that definition. */
  lemma FieldsDefinition(text: string, d: Definition)
    requires Fields(text) == ["#" + Show(d.index), "2", Show(d.colour.r), Show(d.colour.g), Show(d.colour.b)]
    ensures ParseDefinition(text) == Some(d)
  {
    ReadShow(d.index);
    ReadShow(d.colour.r);
    ReadShow(d.colour.g);
    ReadShow(d.colour.b);
    FieldsRead(text, Show(d.index), Show(d.colour.r), Show(d.colour.g), Show(d.colour.b), d);
  }

  /** A text with a definition's five fields, each of which reads back as its part, parses as the definition. */
  lemma FieldsRead(text: string, i: string, r: string, g: string, b: string, d: Definition)
    requires Fields(text) == ["#" + i, "2", r, g, b]
    requires ReadParameter(i) == Some(d.index) && ReadParameter(r) == Some(d.colour.r)
    requires ReadParameter(g) == Some(d.colour.g) && ReadParameter(b) == Some(d.colour.b)
    ensures ParseDefinition(text) == Some(d)
  {
    var first := "#" + i;
    assert first[0] == '#' && first[1..] == i;
  }

  /** `s` does not contain `c`. */
  predicate Free(s: string, c: char) {
    forall i | 0 <= i < |s| :: s[i] != c
  }

  lemma FreeAppend(a: string, b: string, c: char)
    requires Free(a, c) && Free(b, c)
    ensures Free(a + b, c)
  {
  }

  /** The parameters of a definition, after its `#`. */
  function Parameters(d: Definition): string {
    Show(d.index) + ";2;" + Show(d.colour.r) + ";" + Show(d.colour.g) + ";" + Show(d.colour.b)
  }

  lemma ParametersFree(d: Definition)
    ensures Free(Parameters(d), '#')
  {
    var i, r, g, b := Show(d.index), Show(d.colour.r), Show(d.colour.g), Show(d.colour.b);
    NoSeparator(d.index);
    NoSeparator(d.colour.r);
    NoSeparator(d.colour.g);
    NoSeparator(d.colour.b);
    FreeAppend(i, ";2;", '#');
    FreeAppend(i + ";2;", r, '#');
    FreeAppend(i + ";2;" + r, ";", '#');
    FreeAppend(i + ";2;" + r + ";", g, '#');
    FreeAppend(i + ";2;" + r + ";" + g, ";", '#');
    FreeAppend(i + ";2;" + r + ";" + g + ";", b, '#');
  }

  lemma DefinitionTextSplit(d: Definition)
    ensures DefinitionText(d) == "#" + Parameters(d)
  {
    var i, r, g, b := Show(d.index), Show(d.colour.r), Show(d.colour.g), Show(d.colour.b);
    Associate("#", i, ";2;");
    Associate("#", i + ";2;", r);
    Associate("#", i + ";2;" + r, ";");
    Associate("#", i + ";2;" + r + ";", g);
    Associate("#", i + ";2;" + r + ";" + g, ";");
    Associate("#", i + ";2;" + r + ";" + g + ";", b);
  }

  /** The last `#` of a palette followed by one more definition starts that definition. */
  lemma LastDefinition(p: string, d: Definition)
    ensures LastIndex(p + DefinitionText(d), '#') == |p|
    ensures (p + DefinitionText(d))[|p|..] == DefinitionText(d)
    ensures (p + DefinitionText(d))[..|p|] == p
  {
    DefinitionTextSplit(d);
    ParametersFree(d);
    LastHashSplit(p, Parameters(d));
  }

  /** In `p`, `#`, `q` with no `#` in `q`, the last `#` is the one after `p`. */
  lemma LastHashSplit(p: string, q: string)
    requires Free(q, '#')
    ensures var s := p + ("#" + q);
      LastIndex(s, '#') == |p| && s[|p|..] == "#" + q && s[..|p|] == p
  {
    Associate(p, "#", q);
    LastIndexSplit(p, '#', q);
  }

  /** One more definition reads back as one more entry. */
  lemma DecodeSnoc(p: string, d: Definition, ds: seq<Definition>)
    requires DecodePalette(p) == Some(ds)
    ensures DecodePalette(p + DefinitionText(d)) == Some(ds + [d])
  {
    LastDefinition(p, d);
    DefinitionRoundTrip(d);
  }

  /** Every palette reads back as exactly the definitions it was written from, in order. */
  lemma {:induction false} PaletteRoundTrip(ds: seq<Definition>)
    ensures DecodePalette(PaletteText(ds)) == Some(ds)
    decreases |ds|
  {
    if ds != [] {
      var init, d := ds[..|ds| - 1], ds[|ds| - 1];
      PaletteRoundTrip(init);
      DecodeSnoc(PaletteText(init), d, init);
      SnocLast(ds);
    }
  }

  /**
   * The integer part of the viewer's colour map: `num_colours` data levels
   * above 0 and the palette text built for them.
   */
  datatype ColourMap = ColourMap(numColours: int, spec: string) {
    /** The largest colour index in use: the highlighted bounding box. */
    function Maximum(): int { numColours + 3 }
    /** The largest data level. */
    function Range(): int { numColours }
    function Crosshairs(): int { numColours + 1 }
    function Boundingbox(highlight: bool): int { numColours + 2 + (if highlight then 1 else 0) }

    /**
     * `rescale` from the rounded value `val` on: clamp it to 0..num_colours.
     * The offset and scale that produce `val` are floating point.
     */
    function Rescale(val: int): (level: int)
      ensures numColours >= 0 ==> 0 <= level <= Range()
      ensures 0 <= val <= numColours ==> level == val
      ensures numColours >= 0 && val < 0 ==> level == 0
      ensures val > numColours && numColours >= 0 ==> level == Range()
    {
      var v := if val > 0 then val else 0;
      if v < numColours then v else numColours
    }
  }

  /** The three overlay colours after the data levels: crosshairs, box, highlighted box. */
  function Overlays(numColours: int): seq<Definition> {
    [Definition(numColours + 1, Rgb(100, 100, 0)),
     Definition(numColours + 2, Rgb(30, 30, 30)),
     Definition(numColours + 3, Rgb(55, 55, 40))]
  }

  /**
   * The overlay indices sit above every data level a rescaled value can
   * take, are distinct, and the highlighted box is the maximum.
   */
  lemma OverlayIndices(cm: ColourMap, val: int)
    requires cm.numColours >= 0
    ensures cm.Rescale(val) <= cm.Range() < cm.Crosshairs() < cm.Boundingbox(false) < cm.Boundingbox(true)
    ensures cm.Boundingbox(true) == cm.Maximum()
  {
  }

  /**
   * The colour map constructor: the definition of every level 0..num_colours
   * of the colour scale, then the three overlay colours, then a graphics
   * carriage return and a line feed.
   */
  method NewColourMap(colour: int -> Rgb, numberColours: int) returns (cm: ColourMap)
    ensures cm.numColours == numberColours
    ensures cm.spec == PaletteText(LevelDefinitions(0, colour, LevelCount(numberColours)) + Overlays(numberColours)) + "$\n"
  {
    var specifier := "";
    var n := 0;
    while n <= numberColours
      invariant 0 <= n <= LevelCount(numberColours)
      invariant specifier == PaletteText(LevelDefinitions(0, colour, n))
    {
      var c := colour(n);
      ghost var next := PaletteText(LevelDefinitions(0, colour, n + 1));
      assert specifier + DefinitionText(Definition(n, c)) == next by {
        LevelTextSnoc(0, colour, n);
      }
      specifier := specifier + DefinitionText(Definition(n, c));
      n := n + 1;
    }
    assert n == LevelCount(numberColours);
    OverlaysAppended(specifier, LevelDefinitions(0, colour, LevelCount(numberColours)), numberColours);
    specifier := specifier + ("#" + Show(numberColours + 1) + ";2;100;100;0");
    specifier := specifier + ("#" + Show(numberColours + 2) + ";2;30;30;30");
    specifier := specifier + ("#" + Show(numberColours + 3) + ";2;55;55;40$\n");
    cm := ColourMap(numberColours, specifier);
  }

  /** Appending the three overlay literals to the text of some definitions appends the overlays and `$` newline. */
  lemma OverlaysAppended(levels: string, defs: seq<Definition>, nc: int)
    requires levels == PaletteText(defs)
    ensures levels + ("#" + Show(nc + 1) + ";2;100;100;0") + ("#" + Show(nc + 2) + ";2;30;30;30")
              + ("#" + Show(nc + 3) + ";2;55;55;40$\n") == PaletteText(defs + Overlays(nc)) + "$\n"
  {
    var o := Overlays(nc);
    OverlayTexts(nc);
    PaletteTextSnoc(defs, o[0]);
    PaletteTextSnoc(defs + [o[0]], o[1]);
    PaletteTextSnoc(defs + [o[0]] + [o[1]], o[2]);
    SnocThree(defs, o);
    var two := levels + DefinitionText(o[0]) + DefinitionText(o[1]);
    Associate(two, DefinitionText(o[2]), "$\n");
  }

  /** The overlay definitions, written out as literals. */
  lemma OverlayTexts(nc: int)
    ensures "#" + Show(nc + 1) + ";2;100;100;0" == DefinitionText(Overlays(nc)[0])
    ensures "#" + Show(nc + 2) + ";2;30;30;30" == DefinitionText(Overlays(nc)[1])
    ensures "#" + Show(nc + 3) + ";2;55;55;40$\n" == DefinitionText(Overlays(nc)[2]) + "$\n"
  {
    CrosshairsText(nc + 1);
    BoundingboxText(nc + 2);
    HighlightText(nc + 3);
    Associate("#" + Show(nc + 3), ";2;55;55;40", "$\n");
  }

  lemma CrosshairsText(index: int)
    ensures "#" + Show(index) + ";2;100;100;0" == DefinitionText(Definition(index, Rgb(100, 100, 0)))
  {
    assert Show(100) == "100" by { assert Digits(10) == "10"; }
    DefinitionLiteral(index, Rgb(100, 100, 0), ";2;100;100;0");
  }

  lemma BoundingboxText(index: int)
    ensures "#" + Show(index) + ";2;30;30;30" == DefinitionText(Definition(index, Rgb(30, 30, 30)))
  {
    assert Show(30) == "30";
    DefinitionLiteral(index, Rgb(30, 30, 30), ";2;30;30;30");
  }

  lemma HighlightText(index: int)
    ensures "#" + Show(index) + ";2;55;55;40" == DefinitionText(Definition(index, Rgb(55, 55, 40)))
  {
    assert Show(55) == "55" && Show(40) == "40";
    DefinitionLiteral(index, Rgb(55, 55, 40), ";2;55;55;40");
  }

  /** A definition whose colour part is written as one literal. */
  lemma DefinitionLiteral(index: int, c: Rgb, literal: string)
    requires literal == ";2;" + Show(c.r) + ";" + Show(c.g) + ";" + Show(c.b)
    ensures "#" + Show(index) + literal == DefinitionText(Definition(index, c))
  {
    var x, r, g, b := "#" + Show(index), Show(c.r), Show(c.g), Show(c.b);
    Associate(x, ";2;", r);
    Associate(x, ";2;" + r, ";");
    Associate(x, ";2;" + r + ";", g);
    Associate(x, ";2;" + r + ";" + g, ";");
    Associate(x, ";2;" + r + ";" + g + ";", b);
  }


  lemma SnocLast<T>(s: seq<T>)
    requires s != []
    ensures s[..|s| - 1] + [s[|s| - 1]] == s
  {
  }

  lemma SnocThree<T>(s: seq<T>, o: seq<T>)
    requires |o| == 3
    ensures s + [o[0]] + [o[1]] + [o[2]] == s + o
  {
  }

  lemma DropSuffix(a: string, b: string)
    ensures (a + b)[..|a|] == a
  {
  }

  /** Definition i of the colour map's palette is for colour index i. */
  lemma PaletteIndices(colour: int -> Rgb, numberColours: int)
    requires numberColours >= 0
    ensures var ds := LevelDefinitions(0, colour, LevelCount(numberColours)) + Overlays(numberColours);
            |ds| == numberColours + 4 && forall i | 0 <= i < |ds| :: ds[i].index == i
  {
    var levels := LevelDefinitions(0, colour, LevelCount(numberColours));
    var ds := levels + Overlays(numberColours);
    forall i | 0 <= i < |ds| ensures ds[i].index == i {
      if i < |levels| {
        assert ds[i] == levels[i];
      } else {
        assert ds[i] == Overlays(numberColours)[i - |levels|];
      }
    }
  }

  /**
   * The palette of a colour map defines every colour index the encoder can
   * use, 0..maximum, each exactly once and in ascending order, and reads
   * back as those definitions.
   */
  lemma ColourMapPalette(colour: int -> Rgb, numberColours: int, cm: ColourMap)
    requires numberColours >= 0
    requires cm.numColours == numberColours
    requires cm.spec == PaletteText(LevelDefinitions(0, colour, LevelCount(numberColours)) + Overlays(numberColours)) + "$\n"
    ensures var ds := LevelDefinitions(0, colour, LevelCount(numberColours)) + Overlays(numberColours);
            && |ds| == cm.Maximum() + 1
            && (forall i | 0 <= i < |ds| :: ds[i].index == i)
            && DecodePalette(cm.spec[..|cm.spec| - 2]) == Some(ds)
  {
    var ds := LevelDefinitions(0, colour, LevelCount(numberColours)) + Overlays(numberColours);
    DropSuffix(PaletteText(ds), "$\n");
    PaletteRoundTrip(ds);
    PaletteIndices(colour, numberColours);
  }

  /**
   * A colour map of the other encoder: a scale `ID` (none when negative),
   * the register of its first level, its number of levels above 0 and its
   * largest index; `colour (n)` is level n of the scale in percent.
   */
  datatype CMap = CMap(id: int, index: int, ncolours: int, maximum: int, colour: int -> Rgb)

  /** The definitions a colour map writes: none for a map without a scale. */
  function Registers(cmap: CMap): seq<Definition> {
    if cmap.id < 0 then [] else LevelDefinitions(cmap.index, cmap.colour, LevelCount(cmap.ncolours))
  }

  /**
   * `CMap::specifier`: nothing for a map without a scale, otherwise the
   * definitions of levels 0..ncolours in registers index..index+ncolours.
   */
  method Specifier(cmap: CMap) returns (out: string)
    ensures cmap.id < 0 ==> out == ""
    ensures cmap.id >= 0 ==> out == PaletteText(LevelDefinitions(cmap.index, cmap.colour, LevelCount(cmap.ncolours)))
    ensures out == PaletteText(Registers(cmap))
  {
    out := "";
    if cmap.id < 0 {
      return;
    }
    var n := 0;
    while n <= cmap.ncolours
      invariant 0 <= n <= LevelCount(cmap.ncolours)
      invariant out == PaletteText(LevelDefinitions(cmap.index, cmap.colour, n))
    {
      var c := cmap.colour(n);
      ghost var next := PaletteText(LevelDefinitions(cmap.index, cmap.colour, n + 1));
      assert out + DefinitionText(Definition(cmap.index + n, c)) == next by {
        LevelTextSnoc(cmap.index, cmap.colour, n);
      }
      out := out + DefinitionText(Definition(cmap.index + n, c));
      n := n + 1;
    }
    assert n == LevelCount(cmap.ncolours);
  }

  /**
   * The specifier of a map with a scale reads back as ncolours+1
   * definitions, level n in register index+n, in ascending order.
   */
  lemma SpecifierDefinitions(cmap: CMap, text: string)
    requires cmap.id >= 0 && cmap.ncolours >= 0
    requires text == PaletteText(LevelDefinitions(cmap.index, cmap.colour, LevelCount(cmap.ncolours)))
    ensures match DecodePalette(text)
            case Some(ds) =>
              |ds| == cmap.ncolours + 1 &&
              forall n | 0 <= n < |ds| :: ds[n] == Definition(cmap.index + n, cmap.colour(n))
            case None => false
  {
    var ds := LevelDefinitions(cmap.index, cmap.colour, LevelCount(cmap.ncolours));
    PaletteRoundTrip(ds);
    LevelsDecoded(DecodePalette(text), cmap, ds);
  }

  lemma LevelsDecoded(decoded: Option<seq<Definition>>, cmap: CMap, ds: seq<Definition>)
    requires cmap.ncolours >= 0
    requires ds == LevelDefinitions(cmap.index, cmap.colour, LevelCount(cmap.ncolours)) && decoded == Some(ds)
    ensures match decoded
            case Some(ds) =>
              |ds| == cmap.ncolours + 1 &&
              forall n | 0 <= n < |ds| :: ds[n] == Definition(cmap.index + n, cmap.colour(n))
            case None => false
  {
  }
}
