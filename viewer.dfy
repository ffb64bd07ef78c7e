/**
 * The viewer's reaction to terminal events (the `CallBack` of the main
 * event loop): key presses move the focus, switch the slice or volume
 * axis, toggle display options and change what the arrow keys control;
 * mouse reports move the focus or adjust the brightness; the idle event
 * redraws when something changed, which first re-derives the displayed
 * axes and clamps the focus into the image.
 *
 * The state is kept in three groups: where the viewer looks (`Position`),
 * the display switches (`Controls`) and the intensity scaling (`Scaling`),
 * next to the callback's own fields: the last mouse position and the
 * redraw request. `Step` is the transition; the class `CallBack` performs
 * it in place. The image shape (the size of every axis) and the number of
 * colour maps are fixed.
 */
module Viewer {
  import opened Wrappers
  import opened DecimalText
  import opened VtControl
  import opened ViewerQuery

  /** What the arrow keys control. */
  datatype ArrowMode = SliceVol | Colour | Crosshair

  /** The image: the size of every axis (the first three are spatial), and the number of colour maps. */
  datatype Shape = Shape(sizes: seq<int>, colourmaps: nat) {
    function Dims(): nat { |sizes| }
  }

  /**
   * Where the viewer looks: the focus on each spatial axis, the slice axis
   * and the two axes shown across and down, the volume axis (-1 when there
   * is none) and the image position on every axis (only the axes from 3 on
   * are used).
   */
  datatype Position = Position(focus: seq<int>, sliceAxis: int, xAxis: int, yAxis: int, volAxis: int, index: seq<int>)

  /** The display switches; `zoomSteps` counts the factor 1.1 steps of the zoom. */
  datatype Controls = Controls(
    arrowMode: ArrowMode, xArrowMode: ArrowMode,
    crosshair: bool, orthoview: bool, showText: bool, colorbar: bool, showImage: bool, interpolate: bool,
    zoomSteps: int, colourmapId: int, levels: int, doPlot: bool, plotAxis: int)

  /**
   * The intensity scaling: whether it is set, and the brightness and
   * contrast steps applied to it since it was last set.
   */
  datatype Scaling = Scaling(valid: bool, adjustments: seq<(int, int)>)

  /** The whole state; `xp`, `yp` and `needUpdate` belong to the callback itself. */
  datatype View = View(pos: Position, controls: Controls, scaling: Scaling, xp: int, yp: int, needUpdate: bool)

  /** A terminal event: a key code (0 when the terminal is idle) or a decoded mouse report. */
  datatype Event = Key(code: int) | Mouse(button: int, modifier: bool, x: int, y: int)

  /**
   * `set_axes`: the axes shown across and down for a slice axis, none for
   * an axis other than 0, 1 or 2 (the source throws).
   */
  function SetAxes(sliceAxis: int): (r: Option<(int, int)>)
    ensures r.Some? <==> 0 <= sliceAxis <= 2
    ensures r.Some? ==> r.value.0 < r.value.1 && {r.value.0, r.value.1, sliceAxis} == {0, 1, 2}
  {
    if sliceAxis == 0 then Some((1, 2))
    else if sliceAxis == 1 then Some((0, 2))
    else if sliceAxis == 2 then Some((0, 1))
    else None
  }

  /** At least three axes, none of them empty. */
  predicate ShapeOk(shape: Shape) {
    shape.Dims() >= 3 && forall n | 0 <= n < shape.Dims() :: shape.sizes[n] >= 1
  }

  /**
   * A focus on each spatial axis, spatial slice and display axes, a volume
   * axis from 3 on when the image has more than three axes (none
   * otherwise), and a position inside the image on each non-spatial axis.
   */
  predicate PositionOk(shape: Shape, p: Position) {
    |p.focus| == 3 && 0 <= p.sliceAxis <= 2 && 0 <= p.xAxis <= 2 && 0 <= p.yAxis <= 2
    && |p.index| == shape.Dims()
    && (if shape.Dims() > 3 then 3 <= p.volAxis < shape.Dims() else p.volAxis == -1)
    && forall n | 3 <= n < shape.Dims() :: 0 <= p.index[n] < shape.sizes[n]
  }

  /** The arrow keys control the slice and volume, the crosshairs, or the colour scaling. */
  predicate ArrowModesOk(c: Controls) {
    c.xArrowMode != Colour && (c.arrowMode == c.xArrowMode || c.arrowMode == Colour)
  }

  /** The states the viewer can be in. */
  predicate Wf(shape: Shape, v: View) {
    ShapeOk(shape) && PositionOk(shape, v.pos) && ArrowModesOk(v.controls)
  }

  /** The choices made on the command line. */
  datatype CommandLine = CommandLine(
    sliceAxis: int, orthoview: bool, crosshair: bool, text: bool, image: bool,
    doPlot: bool, plotAxis: int, levels: int, colourmapId: int, scalingSet: bool)

  /**
   * `run`: the state before the first event. The focus starts at the
   * middle of every spatial axis, rounded half up; the first redraw clamps
   * it into the image.
   */
  function Initial(shape: Shape, cl: CommandLine): (v: View)
    requires ShapeOk(shape) && 0 <= cl.sliceAxis <= 2
    ensures Wf(shape, v) && v.needUpdate
    ensures forall n | 0 <= n < 3 :: 0 <= v.pos.focus[n] <= shape.sizes[n]
  {
    var axes := SetAxes(cl.sliceAxis).value;
    var pos := Position(seq(3, n requires 0 <= n < 3 => (shape.sizes[n] + 1) / 2),
                        cl.sliceAxis, axes.0, axes.1,
                        if shape.Dims() > 3 then 3 else -1, seq(shape.Dims(), n => 0));
    var controls := Controls(SliceVol, SliceVol, cl.crosshair, cl.orthoview, cl.text, cl.text, cl.image, false,
                             0, cl.colourmapId, cl.levels, cl.doPlot, cl.plotAxis);
    View(pos, controls, Scaling(cl.scalingSet, []), 0, 0, true)
  }

  /** One focus entry moved by d. */
  function Bump(focus: seq<int>, axis: int, d: int): (r: seq<int>)
    requires 0 <= axis < |focus|
    ensures |r| == |focus| && r[axis] == focus[axis] + d
    ensures forall n | 0 <= n < |focus| && n != axis :: r[n] == focus[n]
  {
    focus[axis := focus[axis] + d]
  }

  /** The focus moved by d on one axis. */
  function Move(p: Position, axis: int, d: int): Position
    requires |p.focus| == 3 && 0 <= axis <= 2
  {
    p.(focus := Bump(p.focus, axis, d))
  }

  /** The focus clamp of `display`: below 0 becomes 0, then at or past the size becomes the last position. */
  function ClampEntry(f: int, size: int): int {
    var g := if f < 0 then 0 else f;
    if g >= size then size - 1 else g
  }

  function Clamped(focus: seq<int>, sizes: seq<int>): (r: seq<int>)
    requires |focus| == 3 && |sizes| >= 3
    ensures |r| == 3
  {
    seq(3, n requires 0 <= n < 3 => ClampEntry(focus[n], sizes[n]))
  }

  /** After the clamp every focus entry lies inside the image, and entries already inside stay put. */
  lemma ClampedInRange(focus: seq<int>, sizes: seq<int>)
    requires |focus| == 3 && |sizes| >= 3 && forall n | 0 <= n < 3 :: sizes[n] >= 1
    ensures forall n | 0 <= n < 3 :: 0 <= Clamped(focus, sizes)[n] < sizes[n]
    ensures forall n | 0 <= n < 3 :: 0 <= focus[n] < sizes[n] ==> Clamped(focus, sizes)[n] == focus[n]
  {
  }

  /** The focus loop of `display`, one axis at a time. */
  method ClampFocus(focus: seq<int>, sizes: seq<int>) returns (r: seq<int>)
    requires |focus| == 3 && |sizes| >= 3
    ensures r == Clamped(focus, sizes)
  {
    r := focus;
    for n := 0 to 3
      invariant |r| == 3
      invariant forall m | 0 <= m < n :: r[m] == ClampEntry(focus[m], sizes[m])
      invariant forall m | n <= m < 3 :: r[m] == focus[m]
    {
      if r[n] < 0 {
        r := r[n := 0];
      }
      if r[n] >= sizes[n] {
        r := r[n := sizes[n] - 1];
      }
    }
  }

  /**
   * The idle redraw (`display`) as far as it changes the state: when the
   * image is shown, the displayed axes follow the slice axis, the focus is
   * clamped, and an unset intensity scaling is set afresh; when the plot is
   * on, `plot` sets the displayed axes from the slice axis again, whether
   * or not the image is shown.
   */
  function Display(shape: Shape, v: View): (r: View)
    requires Wf(shape, v)
    ensures Wf(shape, r)
  {
    var w := if v.controls.showImage then
      var axes := SetAxes(v.pos.sliceAxis).value;
      var pos := v.pos.(xAxis := axes.0, yAxis := axes.1, focus := Clamped(v.pos.focus, shape.sizes));
      v.(pos := pos, scaling := if v.scaling.valid then v.scaling else Scaling(true, []))
    else v;
    if v.controls.doPlot then
      var axes := SetAxes(w.pos.sliceAxis).value;
      w.(pos := w.pos.(xAxis := axes.0, yAxis := axes.1))
    else w
  }

  /**
   * The mouse wrap-around correction: the previous coordinate moved by 256
   * when the reported one seems to have jumped by more than 127.
   */
  function Unwrap(previous: int, x: int): int {
    var p := if x - previous > 127 then previous + 256 else previous;
    if p - x > 127 then p - 256 else p
  }

  /**
   * The corrected movement differs from the reported one by a multiple of
   * 256, and it is at most a half turn either way when the report is off
   * by less than one and a half turns.
   */
  lemma UnwrapDelta(previous: int, x: int)
    ensures (x - Unwrap(previous, x) - (x - previous)) % 256 == 0
    ensures -383 <= x - previous <= 383 ==> -127 <= x - Unwrap(previous, x) <= 128
  {
    var d := Unwrap(previous, x) - previous;
    assert d == 0 || d == 256 || d == -256;
  }

  /** A brightness and contrast step (`update_scaling`), logged. */
  function Adjust(s: Scaling, dx: int, dy: int): Scaling {
    s.(adjustments := s.adjustments + [(dx, dy)])
  }

  /**
   * A mouse button, with the previous position already unwrapped: the
   * wheel moves the slice (ten at a time with the modifier), a drag with
   * the left button moves the focus against the movement, a drag with the
   * right button adjusts the scaling.
   */
  function ButtonStep(shape: Shape, v: View, button: int, modifier: bool, x: int, y: int): (r: View)
    requires Wf(shape, v)
    ensures Wf(shape, r)
  {
    var step := if modifier then 10 else 1;
    var p := v.pos;
    if button == MouseWheelUp then v.(pos := Move(p, p.sliceAxis, step))
    else if button == MouseWheelDown then v.(pos := Move(p, p.sliceAxis, -step))
    else if button == MouseMoveLeft then v.(pos := Move(Move(p, p.xAxis, v.xp - x), p.yAxis, v.yp - y))
    else if button == MouseMoveRight then v.(scaling := Adjust(v.scaling, x - v.xp, y - v.yp))
    else v
  }

  /** A mouse report: unwrap the previous position, act on the button, remember the new position. */
  function MouseStep(shape: Shape, v: View, button: int, modifier: bool, x: int, y: int): (r: View)
    requires Wf(shape, v)
    ensures Wf(shape, r) && r.xp == x && r.yp == y
  {
    var w := v.(xp := Unwrap(v.xp, x), yp := Unwrap(v.yp, y));
    ButtonStep(shape, w, button, modifier, x, y).(xp := x, yp := y)
  }

  /** Left in slice-and-volume mode: the previous volume, wrapping from the first to the last. */
  function VolumeBack(shape: Shape, p: Position): (r: Position)
    requires ShapeOk(shape) && PositionOk(shape, p)
    ensures PositionOk(shape, r)
  {
    if p.volAxis >= 0 then
      var i := p.index[p.volAxis] - 1;
      p.(index := p.index[p.volAxis := if i < 0 then shape.sizes[p.volAxis] - 1 else i])
    else p
  }

  /** Right in slice-and-volume mode: the next volume, wrapping from the last to the first. */
  function VolumeForward(shape: Shape, p: Position): (r: Position)
    requires ShapeOk(shape) && PositionOk(shape, p)
    ensures PositionOk(shape, r)
  {
    if p.volAxis >= 0 then
      var i := p.index[p.volAxis] + 1;
      p.(index := p.index[p.volAxis := if i >= shape.sizes[p.volAxis] then 0 else i])
    else p
  }

  /** Right then Left brings the volume back, and so does Left then Right. */
  lemma VolumeRoundTrip(shape: Shape, p: Position)
    requires ShapeOk(shape) && PositionOk(shape, p)
    ensures VolumeBack(shape, VolumeForward(shape, p)) == p
    ensures VolumeForward(shape, VolumeBack(shape, p)) == p
  {
    if p.volAxis >= 0 {
      assert p.index[p.volAxis := p.index[p.volAxis]] == p.index;
    }
  }

  /** The volume keys move the volume index by one, wrapping around the axis. */
  lemma VolumeSteps(shape: Shape, p: Position)
    requires ShapeOk(shape) && PositionOk(shape, p) && p.volAxis >= 0
    ensures var n, i := shape.sizes[p.volAxis], p.index[p.volAxis];
      VolumeForward(shape, p).index[p.volAxis] == (i + 1) % n
      && VolumeBack(shape, p).index[p.volAxis] == (i - 1 + n) % n
  {
    var n, i := shape.sizes[p.volAxis], p.index[p.volAxis];
    if i + 1 < n {
      DivModSmall(i + 1, n);
    } else {
      ModWrap(i + 1, n);
    }
    if i >= 1 {
      ModWrap(i - 1 + n, n);
    } else {
      DivModSmall(n - 1, n);
    }
  }

  /** A number from the divisor up to twice it has the divisor taken off as remainder. */
  lemma ModWrap(a: int, d: int)
    requires 0 < d <= a < 2 * d
    ensures a % d == a - d
  {
    assert a == 1 * d + (a - d);
  }

  /** The arrow keys, by what they control. */
  function ArrowStep(shape: Shape, v: View, code: int): (r: View)
    requires Wf(shape, v) && code in {Up, Down, Left, Right}
    ensures Wf(shape, r)
  {
    var p := v.pos;
    match v.controls.arrowMode
    case SliceVol =>
      if code == Up then v.(pos := Move(p, p.sliceAxis, 1))
      else if code == Down then v.(pos := Move(p, p.sliceAxis, -1))
      else if code == Left then v.(pos := VolumeBack(shape, p))
      else v.(pos := VolumeForward(shape, p))
    case Crosshair =>
      if code == Up then v.(pos := Move(p, p.yAxis, 1))
      else if code == Down then v.(pos := Move(p, p.yAxis, -1))
      else if code == Left then v.(pos := Move(p, p.xAxis, 1))
      else v.(pos := Move(p, p.xAxis, -1))
    case Colour =>
      if code == Up then v.(scaling := Adjust(v.scaling, 0, -1))
      else if code == Down then v.(scaling := Adjust(v.scaling, 0, 1))
      else if code == Left then v.(scaling := Adjust(v.scaling, -1, 0))
      else v.(scaling := Adjust(v.scaling, 1, 0))
  }

  /** 'v': the next volume axis after 3, 4, ..., the last axis, then 3 again. */
  function NextVolAxis(dims: nat, volAxis: int): (r: int)
    requires dims > 3 && 3 <= volAxis < dims
    ensures 3 <= r < dims
  {
    (volAxis - 2) % (dims - 3) + 3
  }

  /** Volume axes cycle through 3 .. dims - 1 in order. */
  lemma VolAxisCycle(dims: nat, volAxis: int)
    requires dims > 3 && 3 <= volAxis < dims
    ensures NextVolAxis(dims, volAxis) == if volAxis == dims - 1 then 3 else volAxis + 1
  {
    if volAxis < dims - 1 {
      DivModSmall(volAxis - 2, dims - 3);
    }
  }

  /** A number below the divisor is its own remainder. */
  lemma DivModSmall(a: nat, d: nat)
    requires a < d
    ensures a % d == a
  {
  }

  /**
   * 'r', as intended: every spatial axis shown goes back to its middle
   * position: the two displayed axes and the slice axis.
   */
  function Reset(shape: Shape, p: Position): (r: Position)
    requires ShapeOk(shape) && PositionOk(shape, p)
    ensures PositionOk(shape, r)
    ensures forall n | n in {p.xAxis, p.yAxis, p.sliceAxis} :: r.focus[n] == shape.sizes[n] / 2
    ensures forall n | 0 <= n < 3 && n !in {p.xAxis, p.yAxis, p.sliceAxis} :: r.focus[n] == p.focus[n]
    ensures r.(focus := p.focus) == p
  {
    var f := p.focus[p.xAxis := shape.sizes[p.xAxis] / 2];
    var f := f[p.yAxis := shape.sizes[p.yAxis] / 2];
    p.(focus := f[p.sliceAxis := shape.sizes[p.sliceAxis] / 2])
  }

  /** 'r' as written: the displayed x axis is set twice and the y axis not at all. */
  function ResetAsWritten(shape: Shape, p: Position): (r: Position)
    requires ShapeOk(shape) && PositionOk(shape, p)
    ensures PositionOk(shape, r)
    ensures r.focus[p.yAxis] == p.focus[p.yAxis] || p.yAxis in {p.xAxis, p.sliceAxis}
  {
    var f := p.focus[p.xAxis := shape.sizes[p.xAxis] / 2];
    var f := f[p.xAxis := shape.sizes[p.xAxis] / 2];
    p.(focus := f[p.sliceAxis := shape.sizes[p.sliceAxis] / 2])
  }

  /**
   * On a 10 x 10 x 10 image viewed axially, with the focus at the corner,
   * the reset as written leaves the y focus at 0 instead of the middle.
   */
  lemma ResetMissesY()
    ensures var shape := Shape([10, 10, 10], 1);
      var p := Position([0, 0, 0], 2, 0, 1, -1, [0, 0, 0]);
      ShapeOk(shape) && PositionOk(shape, p)
      && ResetAsWritten(shape, p).focus == [5, 0, 5]
      && Reset(shape, p).focus == [5, 5, 5]
  {
  }

  /** The number prompt of 'l' and 'p' over the key events typed. */
  function Prompt(typed: seq<int>, vmin: int, vmax: int): (Option<int>, bool) {
    EnteredDigits("", typed);
    Answer(Entered("", typed), vmin, vmax)
  }

  /** The display switches. */
  function SwitchStep(shape: Shape, c: Controls, code: int): (r: Controls)
    requires ArrowModesOk(c)
    ensures ArrowModesOk(r)
  {
    if code == 'f' as int then c.(crosshair := !c.crosshair)
    else if code == 'o' as int then c.(orthoview := !c.orthoview)
    else if code == 't' as int then c.(showText := !c.showText, colorbar := !c.showText)
    else if code == 'm' as int then c.(showImage := !c.showImage)
    else if code == 'i' as int then c.(interpolate := !c.interpolate)
    else if code == '+' as int then c.(zoomSteps := c.zoomSteps + 1)
    else if code == '-' as int then c.(zoomSteps := c.zoomSteps - 1)
    else if code == ' ' as int || code == 'x' as int then
      var mode := if c.xArrowMode == SliceVol then Crosshair else SliceVol;
      c.(xArrowMode := mode, arrowMode := mode)
    else if code == 'b' as int then c.(arrowMode := if c.arrowMode == Colour then c.xArrowMode else Colour)
    else if '1' as int <= code <= '9' as int && code - '1' as int < shape.colourmaps then
      c.(colourmapId := code - '1' as int)
    else c
  }

  /**
   * The number prompts: 'l' sets the number of levels when the answer is
   * in 1 .. 254; 'p' turns the plot on exactly when the answer is a valid
   * axis, and takes any number typed as the plot axis.
   */
  function PromptStep(shape: Shape, c: Controls, code: int, typed: seq<int>): (r: Controls)
    requires code == 'l' as int || code == 'p' as int
    ensures r.arrowMode == c.arrowMode && r.xArrowMode == c.xArrowMode
  {
    if code == 'l' as int then
      var answer := Prompt(typed, 1, 254);
      if answer.1 then c.(levels := answer.0.value) else c
    else
      var answer := Prompt(typed, 0, shape.Dims() - 1);
      c.(doPlot := answer.1, plotAxis := if answer.0.Some? then answer.0.value else c.plotAxis)
  }

  /** The display switches and prompts. */
  function ControlStep(shape: Shape, c: Controls, code: int, typed: seq<int>): (r: Controls)
    requires ArrowModesOk(c)
    ensures ArrowModesOk(r)
  {
    if code == 'l' as int || code == 'p' as int then PromptStep(shape, c, code, typed)
    else SwitchStep(shape, c, code)
  }

  /** The keys that change the display switches. */
  predicate ControlKey(shape: Shape, code: int) {
    code in {'f' as int, 'o' as int, 't' as int, 'm' as int, 'i' as int, '+' as int, '-' as int,
             ' ' as int, 'x' as int, 'b' as int, 'l' as int, 'p' as int}
    || ('1' as int <= code <= '9' as int && code - '1' as int < shape.colourmaps)
  }

  /** The keys other than 'q'. */
  function KeyStep(shape: Shape, v: View, code: int, typed: seq<int>): (r: View)
    requires Wf(shape, v)
    ensures Wf(shape, r)
  {
    var p := v.pos;
    if code in {Up, Down, Left, Right} then ArrowStep(shape, v, code)
    else if code == 'v' as int then
      (if shape.Dims() > 3 then v.(pos := p.(volAxis := NextVolAxis(shape.Dims(), p.volAxis))) else v)
    else if code == 'a' as int then v.(pos := p.(sliceAxis := 2))
    else if code == 's' as int then v.(pos := p.(sliceAxis := 0))
    else if code == 'c' as int then v.(pos := p.(sliceAxis := 1))
    else if code == 'r' as int then v.(pos := Reset(shape, p))
    else if code == Escape then v.(scaling := v.scaling.(valid := false))
    else if code == '?' as int then v
    else if ControlKey(shape, code) then v.(controls := ControlStep(shape, v.controls, code, typed))
    else v.(needUpdate := false)
  }

  /**
   * The callback: the next state and whether the event loop goes on.
   * `typed` are the key events the number prompt of 'l' and 'p' reads.
   */
  function Step(shape: Shape, v: View, e: Event, typed: seq<int>): (r: (View, bool))
    requires Wf(shape, v)
    ensures Wf(shape, r.0)
  {
    match e
    case Key(code) =>
      if code == 0 then (if v.needUpdate then Display(shape, v.(needUpdate := false)) else v, true)
      else if code == 'q' as int then (v.(needUpdate := true), false)
      else (KeyStep(shape, v.(needUpdate := true), code, typed), true)
    case Mouse(button, modifier, x, y) =>
      (MouseStep(shape, v.(needUpdate := true), button, modifier, x, y), true)
  }

  /** Only 'q' ends the event loop. */
  lemma OnlyQuitStops(shape: Shape, v: View, e: Event, typed: seq<int>)
    requires Wf(shape, v)
    ensures !Step(shape, v, e, typed).1 <==> e == Key('q' as int)
  {
  }

  /**
   * The idle event redraws only when asked and clears the request; mouse
   * reports and the keys that move the view ask for a redraw; a key the
   * viewer does not know changes nothing.
   */
  lemma UpdateRequested(shape: Shape, v: View, e: Event, typed: seq<int>)
    requires Wf(shape, v)
    ensures e == Key(0) ==> !Step(shape, v, e, typed).0.needUpdate
    ensures e == Key(0) && !v.needUpdate ==> Step(shape, v, e, typed).0 == v
    ensures e.Mouse? ==> Step(shape, v, e, typed).0.needUpdate
    ensures e.Key? && e.code in {Up, Down, Left, Right, 'a' as int, 's' as int, 'c' as int, 'r' as int, 'v' as int}
            ==> Step(shape, v, e, typed).0.needUpdate
    ensures e.Key? && e.code != 0 && !(e.code in {Up, Down, Left, Right, 'q' as int, 'v' as int, 'a' as int, 's' as int,
                                                    'c' as int, 'r' as int, Escape, '?' as int} || ControlKey(shape, e.code))
            ==> Step(shape, v, e, typed) == (v.(needUpdate := false), true)
  {
  }

  /**
   * A redraw re-derives the displayed axes exactly when the image or the
   * plot is shown; with the image hidden it leaves the focus and the
   * scaling alone, and with neither shown it only clears the request.
   */
  lemma RedrawAxes(shape: Shape, v: View, typed: seq<int>)
    requires Wf(shape, v) && v.needUpdate
    ensures var r := Step(shape, v, Key(0), typed).0;
      ((v.controls.showImage || v.controls.doPlot) ==> SetAxes(r.pos.sliceAxis) == Some((r.pos.xAxis, r.pos.yAxis)))
      && (!v.controls.showImage ==> r.pos.focus == v.pos.focus && r.scaling == v.scaling)
      && (!v.controls.showImage && !v.controls.doPlot ==> r == v.(needUpdate := false))
      && r.pos.sliceAxis == v.pos.sliceAxis && r.controls == v.controls
  {
  }

  /**
   * With the image hidden and the plot on, a redraw lets the crosshair
   * keys follow the slice axis: after switching to the coronal slice, Up
   * moves the focus on axis 2.
   */
  lemma HiddenImagePlotAxes(shape: Shape, v: View, typed: seq<int>)
    requires Wf(shape, v) && v.needUpdate
    requires !v.controls.showImage && v.controls.doPlot && v.controls.arrowMode == Crosshair
    requires v.pos.sliceAxis == 1 && v.pos.xAxis == 0 && v.pos.yAxis == 1
    ensures var r := Step(shape, v, Key(0), typed).0;
      var u := Step(shape, r, Key(Up), typed).0;
      r.pos.yAxis == 2 && u.pos.focus == v.pos.focus[2 := v.pos.focus[2] + 1]
  {
  }

  /** After a redraw of the image, the focus lies inside the image and the axes follow the slice axis. */
  lemma RedrawClampsFocus(shape: Shape, v: View, typed: seq<int>)
    requires Wf(shape, v) && v.needUpdate && v.controls.showImage
    ensures var r := Step(shape, v, Key(0), typed).0;
      (forall n | 0 <= n < 3 :: 0 <= r.pos.focus[n] < shape.sizes[n])
      && SetAxes(r.pos.sliceAxis) == Some((r.pos.xAxis, r.pos.yAxis))
      && r.scaling.valid
  {
    ClampedInRange(v.pos.focus, shape.sizes);
  }

  /**
   * 'x' (or space) flips the arrow keys between slice-and-volume and
   * crosshair control; 'b' switches the colour control on, and a second
   * 'b' restores what the arrows controlled before.
   */
  lemma ArrowModeToggles(shape: Shape, c: Controls)
    requires ArrowModesOk(c)
    ensures var r := ControlStep(shape, c, 'x' as int, []);
      r.arrowMode == r.xArrowMode && r.xArrowMode != c.xArrowMode
    ensures var r := ControlStep(shape, c, 'b' as int, []);
      (r.arrowMode == Colour <==> c.arrowMode != Colour) && r.xArrowMode == c.xArrowMode
    ensures ControlStep(shape, ControlStep(shape, c, 'b' as int, []), 'b' as int, []) == c
  {
  }

  /**
   * A drag with the left button moves the focus on the two displayed axes
   * against the movement, by the unwrapped distance: at most a half turn
   * of 256 either way, and equal to the reported distance modulo 256.
   */
  lemma DragMovesFocus(shape: Shape, v: View, modifier: bool, x: int, y: int)
    requires Wf(shape, v) && v.pos.xAxis != v.pos.yAxis
    requires -383 <= x - v.xp <= 383 && -383 <= y - v.yp <= 383
    ensures var r := Step(shape, v, Mouse(MouseMoveLeft, modifier, x, y), []).0;
      var dx := v.pos.focus[v.pos.xAxis] - r.pos.focus[v.pos.xAxis];
      var dy := v.pos.focus[v.pos.yAxis] - r.pos.focus[v.pos.yAxis];
      -127 <= dx <= 128 && -127 <= dy <= 128
      && (dx - (x - v.xp)) % 256 == 0 && (dy - (y - v.yp)) % 256 == 0
  {
    UnwrapDelta(v.xp, x);
    UnwrapDelta(v.yp, y);
  }

  /**
   * The callback object of the main event loop. The viewer state it
   * changes lives in its fields: the position, the display switches and
   * the intensity scaling (globals in the source), the last mouse position
   * and the redraw request.
   */
  class CallBack {
    const shape: Shape
    var pos: Position
    var controls: Controls
    var scaling: Scaling
    var xp: int
    var yp: int
    var needUpdate: bool

    function State(): View
      reads this
    {
      View(pos, controls, scaling, xp, yp, needUpdate)
    }

    ghost predicate Valid()
      reads this
    {
      Wf(shape, State())
    }

    /** The callback starts with the mouse at 0, 0 and a redraw requested. */
    constructor (shape: Shape, pos: Position, controls: Controls, scaling: Scaling)
      requires Wf(shape, View(pos, controls, scaling, 0, 0, true))
      ensures Valid() && this.shape == shape && State() == View(pos, controls, scaling, 0, 0, true)
    {
      this.shape, this.pos, this.controls, this.scaling := shape, pos, controls, scaling;
      xp, yp, needUpdate := 0, 0, true;
    }

    /** `operator()`: one event; false when the event loop is to stop. */
    method Handle(e: Event, typed: seq<int>) returns (more: bool)
      requires Valid()
      modifies this
      ensures Valid()
      ensures (State(), more) == Step(shape, old(State()), e, typed)
    {
      if e.Key? && e.code == 0 {
        if needUpdate {
          needUpdate := false;
          Redraw();
        }
        return true;
      }
      needUpdate := true;
      if e.Key? && e.code == 'q' as int {
        return false;
      }
      if e.Mouse? {
        HandleMouse(e.button, e.modifier, e.x, e.y);
        return true;
      }
      HandleKey(e.code, typed);
      return true;
    }

    /** `display`, as far as it changes the state. */
    method Redraw()
      requires Valid()
      modifies this
      ensures Valid() && State() == Display(shape, old(State()))
    {
      if controls.showImage {
        var axes := SetAxes(pos.sliceAxis);
        var focus := ClampFocus(pos.focus, shape.sizes);
        pos := pos.(xAxis := axes.value.0, yAxis := axes.value.1, focus := focus);
        if !scaling.valid {
          scaling := Scaling(true, []);
        }
      }
      if controls.doPlot {
        var axes := SetAxes(pos.sliceAxis);
        pos := pos.(xAxis := axes.value.0, yAxis := axes.value.1);
      }
    }

    /** A mouse report. */
    method HandleMouse(button: int, modifier: bool, x: int, y: int)
      requires Valid()
      modifies this
      ensures Valid() && State() == MouseStep(shape, old(State()), button, modifier, x, y)
    {
      if x - xp > 127 { xp := xp + 256; }
      if xp - x > 127 { xp := xp - 256; }
      if y - yp > 127 { yp := yp + 256; }
      if yp - y > 127 { yp := yp - 256; }
      assert State() == old(State()).(xp := Unwrap(old(xp), x), yp := Unwrap(old(yp), y));
      HandleButton(button, modifier, x, y);
      xp, yp := x, y;
    }

    /** The button cases of a mouse report. */
    method HandleButton(button: int, modifier: bool, x: int, y: int)
      requires Valid()
      modifies this
      ensures Valid() && State() == ButtonStep(shape, old(State()), button, modifier, x, y)
    {
      var step := if modifier then 10 else 1;
      if button == MouseWheelUp {
        pos := pos.(focus := pos.focus[pos.sliceAxis := pos.focus[pos.sliceAxis] + step]);
      } else if button == MouseWheelDown {
        pos := pos.(focus := pos.focus[pos.sliceAxis := pos.focus[pos.sliceAxis] - step]);
      } else if button == MouseMoveLeft {
        pos := pos.(focus := pos.focus[pos.xAxis := pos.focus[pos.xAxis] + (xp - x)]);
        pos := pos.(focus := pos.focus[pos.yAxis := pos.focus[pos.yAxis] + (yp - y)]);
      } else if button == MouseMoveRight {
        scaling := scaling.(adjustments := scaling.adjustments + [(x - xp, y - yp)]);
      }
    }

    /** The arrow keys. */
    method HandleArrow(code: int)
      requires Valid() && code in {Up, Down, Left, Right}
      modifies this
      ensures Valid() && State() == ArrowStep(shape, old(State()), code)
    {
      var d := if code == Up || code == Left then 1 else -1;
      match controls.arrowMode
      case SliceVol =>
        if code == Up || code == Down {
          pos := pos.(focus := pos.focus[pos.sliceAxis := pos.focus[pos.sliceAxis] + d]);
        } else if pos.volAxis >= 0 {
          var i := pos.index[pos.volAxis] - d;
          if i < 0 {
            i := shape.sizes[pos.volAxis] - 1;
          } else if i >= shape.sizes[pos.volAxis] {
            i := 0;
          }
          pos := pos.(index := pos.index[pos.volAxis := i]);
        }
      case Crosshair =>
        if code == Up || code == Down {
          pos := pos.(focus := pos.focus[pos.yAxis := pos.focus[pos.yAxis] + d]);
        } else {
          pos := pos.(focus := pos.focus[pos.xAxis := pos.focus[pos.xAxis] + d]);
        }
      case Colour =>
        var step := if code == Up then (0, -1) else if code == Down then (0, 1) else if code == Left then (-1, 0) else (1, 0);
        scaling := scaling.(adjustments := scaling.adjustments + [step]);
    }

    /** The keys other than the arrows and 'q'. */
    method HandleKey(code: int, typed: seq<int>)
      requires Valid()
      modifies this
      ensures Valid() && State() == KeyStep(shape, old(State()), code, typed)
    {
      if code in {Up, Down, Left, Right} {
        HandleArrow(code);
      } else if code == 'v' as int {
        if shape.Dims() > 3 {
          pos := pos.(volAxis := (pos.volAxis - 2) % (shape.Dims() - 3) + 3);
        }
      } else if code == 'a' as int {
        pos := pos.(sliceAxis := 2);
      } else if code == 's' as int {
        pos := pos.(sliceAxis := 0);
      } else if code == 'c' as int {
        pos := pos.(sliceAxis := 1);
      } else if code == 'r' as int {
        pos := pos.(focus := pos.focus[pos.xAxis := shape.sizes[pos.xAxis] / 2]);
        pos := pos.(focus := pos.focus[pos.yAxis := shape.sizes[pos.yAxis] / 2]);
        pos := pos.(focus := pos.focus[pos.sliceAxis := shape.sizes[pos.sliceAxis] / 2]);
      } else if code == Escape {
        scaling := scaling.(valid := false);
      } else if code == '?' as int {
      } else if ControlKey(shape, code) {
        HandleControl(code, typed);
      } else {
        needUpdate := false;
      }
    }

    /** The display switches and the number prompts. */
    method HandleControl(code: int, typed: seq<int>)
      requires Valid()
      modifies this
      ensures Valid() && State() == old(State()).(controls := ControlStep(shape, old(controls), code, typed))
    {
      if code == 'l' as int || code == 'p' as int {
        var c := Query(controls, code, typed);
        controls := c;
      } else {
        var c := Switch(controls, code);
        controls := c;
      }
    }

    /** 'l' and 'p': ask for a number and use it. */
    method Query(c: Controls, code: int, typed: seq<int>) returns (r: Controls)
      requires code == 'l' as int || code == 'p' as int
      ensures r == PromptStep(shape, c, code, typed)
    {
      r := c;
      if code == 'l' as int {
        var n, ok := QueryInt(typed, 1, 254);
        if ok {
          r := r.(levels := n.value);
        }
      } else {
        var n, ok := QueryInt(typed, 0, shape.Dims() - 1);
        r := r.(doPlot := ok, plotAxis := if n.Some? then n.value else r.plotAxis);
      }
    }

    /** The display switches. */
    method Switch(c: Controls, code: int) returns (r: Controls)
      requires ArrowModesOk(c)
      ensures r == SwitchStep(shape, c, code)
    {
      r := c;
      if code == 'f' as int {
        r := r.(crosshair := !r.crosshair);
      } else if code == 'o' as int {
        r := r.(orthoview := !r.orthoview);
      } else if code == 't' as int {
        r := r.(showText := !r.showText, colorbar := !r.showText);
      } else if code == 'm' as int {
        r := r.(showImage := !r.showImage);
      } else if code == 'i' as int {
        r := r.(interpolate := !r.interpolate);
      } else if code == '+' as int {
        r := r.(zoomSteps := r.zoomSteps + 1);
      } else if code == '-' as int {
        r := r.(zoomSteps := r.zoomSteps - 1);
      } else if code == ' ' as int || code == 'x' as int {
        var mode := if r.xArrowMode == SliceVol then Crosshair else SliceVol;
        r := r.(xArrowMode := mode, arrowMode := mode);
      } else if code == 'b' as int {
        r := r.(arrowMode := if r.arrowMode == Colour then r.xArrowMode else Colour);
      } else if '1' as int <= code <= '9' as int && code - '1' as int < shape.colourmaps {
        r := r.(colourmapId := code - '1' as int);
      }
    }
  }
}
