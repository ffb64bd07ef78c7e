/**
 * The overlays the viewer draws on an image panel: the highlight frame
 * around the panel that has the keyboard focus, and the crosshairs
 * through the focus. A panel is a rectangle of colour indices addressed
 * `view[x, y]`, x across and y down.
 */
module ViewerDraw {

  /** The cells on the outermost rows and columns of a panel. */
  predicate OnFrame(x: int, y: int, xDim: int, yDim: int) {
    x == 0 || x == xDim - 1 || y == 0 || y == yDim - 1
  }

  /** `draw_frame`: the top and bottom rows, then the left and right columns, in the colour given. */
  method DrawFrame(view: array2<int>, index: int)
    requires view.Length0 >= 1 && view.Length1 >= 1
    modifies view
    ensures forall x, y | 0 <= x < view.Length0 && 0 <= y < view.Length1 ::
      view[x, y] == if OnFrame(x, y, view.Length0, view.Length1) then index else old(view[x, y])
  {
    var xDim, yDim := view.Length0, view.Length1;
    for x := 0 to xDim
      invariant forall i, j | 0 <= i < xDim && 0 <= j < yDim ::
        view[i, j] == if i < x && (j == 0 || j == yDim - 1) then index else old(view[i, j])
    {
      view[x, yDim - 1] := index;
      view[x, 0] := index;
    }
    for y := 0 to yDim
      invariant forall i, j | 0 <= i < xDim && 0 <= j < yDim ::
        view[i, j] == if j == 0 || j == yDim - 1 || (j < y && (i == 0 || i == xDim - 1)) then index else old(view[i, j])
    {
      view[xDim - 1, y] := index;
      view[0, y] := index;
    }
  }

  /** `draw_crosshairs`: the row through y0 and the column through x0, in the colour given. */
  method DrawCrosshairs(view: array2<int>, x0: int, y0: int, index: int)
    requires 0 <= x0 < view.Length0 && 0 <= y0 < view.Length1
    modifies view
    ensures forall x, y | 0 <= x < view.Length0 && 0 <= y < view.Length1 ::
      view[x, y] == if x == x0 || y == y0 then index else old(view[x, y])
  {
    var xDim, yDim := view.Length0, view.Length1;
    for x := 0 to xDim
      invariant forall i, j | 0 <= i < xDim && 0 <= j < yDim ::
        view[i, j] == if i < x && j == y0 then index else old(view[i, j])
    {
      view[x, y0] := index;
    }
    for y := 0 to yDim
      invariant forall i, j | 0 <= i < xDim && 0 <= j < yDim ::
        view[i, j] == if j == y0 || (j < y && i == x0) then index else old(view[i, j])
    {
      view[x0, y] := index;
    }
  }

  /**
   * The crosshair coordinate of `display_image`: the position computed
   * from the focus, limited to the last pixel and then to the first.
   */
  function CrosshairClamp(v: int, dim: int): (r: int)
    ensures dim >= 1 ==> 0 <= r < dim
    ensures 0 <= v < dim ==> r == v
    ensures dim >= 1 && v < 0 ==> r == 0
    ensures dim >= 1 && v >= dim ==> r == dim - 1
  {
    var m := if v < dim - 1 then v else dim - 1;
    if m > 0 then m else 0
  }

  /**
   * In the side-by-side view a slice of height yDim is centred in a panel
   * of height panelYDim by moving it down (panelYDim - yDim) / 2 rows; the
   * crosshair row, clamped within the slice and moved down with it, stays
   * inside the panel and inside the slice.
   */
  lemma CentredCrosshairInPanel(y: int, yDim: int, panelYDim: int)
    requires 1 <= yDim <= panelYDim
    ensures var dy := (panelYDim - yDim) / 2;
      var row := CrosshairClamp(y, yDim) + dy;
      dy <= row < dy + yDim <= panelYDim
  {
    var d := panelYDim - yDim;
    assert d / 2 * 2 <= d;
  }
}
