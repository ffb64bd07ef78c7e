/**
 * Key codes, control characters and the two cursor-movement builders of
 * the terminal control layer (ECMA-48 CUP, CUU, CUD, CUF, CUB).
 */
module VtControl {
  import opened DecimalText
  import opened Wrappers

  const Escape: int := 0x1B
  const CtrlC: int := 0x03
  const Backspace: int := 0x7F
  /**
   * The key event the number prompt stops at: the one byte of the string
   * `CarriageReturn` ("\r"), which the prompt's test compares the event with.
   */
  const CarriageReturn: int := 0x0D
  const Up: int := 0x0101
  const Down: int := 0x0102
  const Right: int := 0x0103
  const Left: int := 0x0104
  const PageUp: int := 0x0105
  const PageDown: int := 0x0106
  const Tab: int := 0x0009
  const ShiftTab: int := 0x0109
  const Home: int := 0x0110
  const End: int := 0x0111
  const Delete: int := 0x0112
  const MouseLeft: int := 0x0201
  const MouseMiddle: int := 0x0202
  const MouseRight: int := 0x0203
  const MouseWheelUp: int := 0x0204
  const MouseWheelDown: int := 0x0205
  const MouseRelease: int := 0x0206
  const MouseMoveLeft: int := 0x0211
  const MouseMoveMiddle: int := 0x0212
  const MouseMoveRight: int := 0x0213

  /** The symbolic keys the input decoder can report. */
  const NamedKeys: seq<int> := [Up, Down, Right, Left, PageUp, PageDown, ShiftTab, Home, End, Delete]
  /** The mouse event codes. */
  const MouseCodes: seq<int> := [MouseLeft, MouseMiddle, MouseRight, MouseWheelUp, MouseWheelDown,
                                 MouseRelease, MouseMoveLeft, MouseMoveMiddle, MouseMoveRight]

  /**
   * The control character of `c`: its low five bits. On two's-complement
   * integers `c & 0x1F` is the non-negative remainder modulo 32, which is
   * Dafny's `%`.
   */
  function Ctrl(c: int): (r: int)
    ensures 0 <= r < 32
  {
    c % 32
  }

  /** Ctrl only looks at the low five bits: it is periodic with period 32. */
  lemma CtrlPeriodic(c: int, k: int)
    ensures Ctrl(c + 32 * k) == Ctrl(c)
  {
  }

  /** Ctrl of an upper- or lower-case letter is its position in the alphabet. */
  lemma CtrlLetters(k: int)
    requires 0 <= k < 26
    ensures Ctrl('A' as int + k) == k + 1
    ensures Ctrl('a' as int + k) == k + 1
    ensures Ctrl('C' as int) == CtrlC
  {
  }

  /**
   * Every named key and mouse code lies above the byte range, so none can be
   * confused with a raw byte, and all of them are pairwise distinct; Tab is
   * the one key code that is a byte itself.
   */
  lemma KeyCodesDistinct()
    ensures forall i | 0 <= i < |NamedKeys| :: NamedKeys[i] >= 0x100
    ensures forall i | 0 <= i < |MouseCodes| :: MouseCodes[i] >= 0x100
    ensures forall i, j | 0 <= i < j < |NamedKeys + MouseCodes| :: (NamedKeys + MouseCodes)[i] != (NamedKeys + MouseCodes)[j]
    ensures Tab == 0x09 && Tab < 0x100
  {
  }

  const Esc: char := 0x1B as char

  /** Device control string introducing sixel data (DCS q), with a graphics carriage return. */
  const SixelStart: string := [Esc, 'P', 'q', '$']
  /** String terminator (ST) ending the sixel data. */
  const SixelStop: string := [Esc, '\\']
  /** Carriage return as text. */
  const Return: string := "\r"

  /** CUP: move the cursor to row `row` and column `column`. */
  function PositionCursorAt(row: int, column: int): (s: string)
    ensures |s| >= 6 && s[..2] == [Esc, '['] && s[|s| - 1] == 'H'
  {
    [Esc, '['] + Show(row) + ";" + Show(column) + "H"
  }

  /** The cursor directions `move_cursor` accepts. */
  predicate IsDirection(direction: int) {
    direction == Up || direction == Down || direction == Left || direction == Right
  }

  /** The final byte of CUU, CUD, CUB and CUF respectively. */
  function DirectionFinal(direction: int): (c: char)
    requires IsDirection(direction)
  {
    if direction == Up then 'A'
    else if direction == Down then 'B'
    else if direction == Left then 'D'
    else 'C'
  }

  /** CUU/CUD/CUB/CUF: move the cursor `n` cells in `direction`. */
  function MoveCursor(direction: int, n: int): (s: string)
    requires IsDirection(direction)
    ensures |s| >= 4 && s[..2] == [Esc, '['] && s[|s| - 1] in "ABCD"
  {
    [Esc, '['] + Show(n) + [DirectionFinal(direction)]
  }

  /** The (row, column) a CUP sequence asks for, if `s` is one. */
  function ParseCursorPosition(s: string): (r: Option<(int, int)>)
  {
    if |s| < 3 || s[..2] != [Esc, '['] || s[|s| - 1] != 'H' then None
    else
      var body := s[2..|s| - 1];
      var k := FindChar(body, ';');
      if k == |body| then None
      else match (ReadParameter(body[..k]), ReadParameter(body[k + 1..]))
        case (Some(row), Some(column)) => Some((row, column))
        case _ => None
  }

  /** The (direction, count) a cursor-movement sequence asks for, if `s` is one. */
  function ParseCursorMove(s: string): (r: Option<(int, int)>)
  {
    if |s| < 3 || s[..2] != [Esc, '['] then None
    else
      var final := s[|s| - 1];
      var direction := if final == 'A' then Up else if final == 'B' then Down
                       else if final == 'D' then Left else if final == 'C' then Right else 0;
      if direction == 0 then None
      else match ReadParameter(s[2..|s| - 1])
        case Some(n) => Some((direction, n))
        case None => None
  }

  /** A CUP sequence names exactly the row and column it was built from. */
  lemma PositionCursorAtRoundTrip(row: int, column: int)
    ensures ParseCursorPosition(PositionCursorAt(row, column)) == Some((row, column))
  {
    var s := PositionCursorAt(row, column);
    var a, b := Show(row), Show(column);
    var body := s[2..|s| - 1];
    assert body == a + ";" + b;
    ShowAlphabet(row);
    FindCharSplit(a, ';', b);
    assert body[..|a|] == a;
    assert body[|a| + 1..] == b;
    ReadShow(row);
    ReadShow(column);
  }

  /** A cursor-movement sequence names exactly its direction and count. */
  lemma MoveCursorRoundTrip(direction: int, n: int)
    requires IsDirection(direction)
    ensures ParseCursorMove(MoveCursor(direction, n)) == Some((direction, n))
  {
    var s := MoveCursor(direction, n);
    assert s[2..|s| - 1] == Show(n);
    ReadShow(n);
  }
}
