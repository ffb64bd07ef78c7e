/**
 * The keyboard decoder `read_user_input`: one call reads a byte from the
 * terminal and, when it is ESC, up to three more, and reports either the
 * byte itself or a named key.
 *
 * The terminal is a finite byte sequence; a read fails exactly when that
 * sequence is exhausted. The source retries the very first read until a
 * byte arrives; the model reports that situation as no event (None).
 */
module VtInput {
  import opened Wrappers
  import opened VtControl

  type Byte = b: int | 0 <= b < 256

  /** The value of a byte read into a (signed) `char` and returned as `int`. */
  function Signed(b: Byte): (v: int)
    ensures -128 <= v < 128
    ensures v == b || v == b - 256
  {
    if b < 128 then b else b - 256
  }

  /** The outcome of one call: the event and how many bytes it consumed. */
  datatype Decoded = Decoded(event: int, consumed: nat)

  /** Final digit of `ESC [ d ~`. */
  function TildeKey(d: Byte): int {
    if d == '1' as int then Home
    else if d == '3' as int then Delete
    else if d == '4' as int then End
    else if d == '5' as int then PageUp
    else if d == '6' as int then PageDown
    else if d == '7' as int then Home
    else if d == '8' as int then End
    else Escape
  }

  /** Final byte of `ESC [ c` for a non-digit `c`. */
  function CsiKey(c: Byte): int {
    if c == 'A' as int then Up
    else if c == 'B' as int then Down
    else if c == 'C' as int then Right
    else if c == 'D' as int then Left
    else if c == 'Z' as int then ShiftTab
    else if c == 'H' as int then Home
    else if c == 'F' as int then End
    else Escape
  }

  /** Final byte of the SS3 sequence `ESC O c`. */
  function Ss3Key(c: Byte): int {
    if c == 'H' as int then Home
    else if c == 'F' as int then End
    else Escape
  }

  predicate IsDigitByte(b: Byte) {
    '0' as int <= b <= '9' as int
  }

  /** The keys (besides Escape) that an escape sequence can produce. */
  predicate IsEscapeResult(e: int) {
    e == Escape || e in NamedKeys
  }

  /** What one call of the decoder returns on the pending bytes `s`. */
  function Decode(s: seq<Byte>): (r: Option<Decoded>)
    ensures r.None? <==> s == []
    ensures r.Some? ==> 1 <= r.value.consumed <= 4 && r.value.consumed <= |s|
    ensures r.Some? && s[0] != Escape ==> r.value == Decoded(Signed(s[0]), 1)
    ensures r.Some? && s[0] == Escape ==> IsEscapeResult(r.value.event)
  {
    if s == [] then None
    else if s[0] != Escape then Some(Decoded(Signed(s[0]), 1))
    else if |s| < 3 then Some(Decoded(Escape, |s|))
    else if s[1] == '[' as int then
      if IsDigitByte(s[2]) then
        if |s| < 4 then Some(Decoded(Escape, 3))
        else if s[3] == '~' as int then Some(Decoded(TildeKey(s[2]), 4))
        else Some(Decoded(Escape, 4))
      else Some(Decoded(CsiKey(s[2]), 3))
    else if s[1] == 'O' as int then Some(Decoded(Ss3Key(s[2]), 3))
    else Some(Decoded(Escape, 3))
  }

  /** The terminal's input side: the bytes that have not been read yet. */
  class Terminal {
    var pending: seq<Byte>

    constructor (input: seq<Byte>)
      ensures pending == input
    {
      pending := input;
    }

    /** `read (STDIN_FILENO, &c, 1)`: one byte, or 0 bytes once input is exhausted. */
    method Read() returns (nread: int, c: Byte)
      modifies this
      ensures old(pending) == [] ==> nread == 0 && pending == []
      ensures old(pending) != [] ==> nread == 1 && c == old(pending)[0] && pending == old(pending)[1..]
    {
      if pending == [] {
        nread, c := 0, 0;
      } else {
        nread, c := 1, pending[0];
        pending := pending[1..];
      }
    }

    /** `read_user_input`: decode one event from the pending bytes. */
    method ReadUserInput() returns (event: Option<int>)
      modifies this
      ensures Decode(old(pending)).None? ==> event.None? && pending == old(pending)
      ensures Decode(old(pending)).Some? ==>
                var d := Decode(old(pending)).value;
                event == Some(d.event) && pending == old(pending)[d.consumed..]
    {
      ghost var s := pending;
      var nread, c := Read();
      if nread != 1 {
        return None;
      }
      if c == Escape {
        var n0, s0 := Read();
        if n0 != 1 {
          return Some(Escape);
        }
        var n1, s1 := Read();
        if n1 != 1 {
          return Some(Escape);
        }
        if s0 == '[' as int {
          if s1 >= '0' as int && s1 <= '9' as int {
            var n2, s2 := Read();
            if n2 != 1 {
              return Some(Escape);
            }
            assert s[..4] == [c, s0, s1, s2];
            if s2 == '~' as int {
              if s1 == '1' as int { return Some(Home); }
              else if s1 == '3' as int { return Some(Delete); }
              else if s1 == '4' as int { return Some(End); }
              else if s1 == '5' as int { return Some(PageUp); }
              else if s1 == '6' as int { return Some(PageDown); }
              else if s1 == '7' as int { return Some(Home); }
              else if s1 == '8' as int { return Some(End); }
              else { return Some(Escape); }
            }
          } else {
            if s1 == 'A' as int { return Some(Up); }
            else if s1 == 'B' as int { return Some(Down); }
            else if s1 == 'C' as int { return Some(Right); }
            else if s1 == 'D' as int { return Some(Left); }
            else if s1 == 'Z' as int { return Some(ShiftTab); }
            else if s1 == 'H' as int { return Some(Home); }
            else if s1 == 'F' as int { return Some(End); }
            else { return Some(Escape); }
          }
        } else if s0 == 'O' as int {
          if s1 == 'H' as int { return Some(Home); }
          else if s1 == 'F' as int { return Some(End); }
          else { return Some(Escape); }
        }
        return Some(Escape);
      }
      return Some(Signed(c));
    }
  }

  /** A byte outside an escape sequence is passed through on its own. */
  lemma PassThrough(b: Byte, rest: seq<Byte>)
    requires b != Escape
    ensures Decode([b] + rest) == Some(Decoded(Signed(b), 1))
    ensures 0 <= b < 128 ==> Decode([b] + rest).value.event == b
  {
  }

  /** ESC with fewer than two further bytes is Escape itself. */
  lemma LoneEscape(s: seq<Byte>)
    requires s != [] && s[0] == Escape && |s| < 3
    ensures Decode(s) == Some(Decoded(Escape, |s|))
  {
  }

  /** `ESC [ d ~` for each digit d. */
  lemma CsiTildeTable(d: Byte, rest: seq<Byte>)
    requires IsDigitByte(d)
    ensures var e := Decode([Escape, '[' as int, d, '~' as int] + rest).value.event;
            (d == '1' as int || d == '7' as int ==> e == Home) &&
            (d == '4' as int || d == '8' as int ==> e == End) &&
            (d == '3' as int ==> e == Delete) &&
            (d == '5' as int ==> e == PageUp) &&
            (d == '6' as int ==> e == PageDown) &&
            (d == '0' as int || d == '2' as int || d == '9' as int ==> e == Escape)
  {
  }

  /** `ESC [ d` followed by nothing, or by anything but `~`, is Escape. */
  lemma CsiDigitWithoutTilde(s: seq<Byte>)
    requires |s| >= 3 && s[0] == Escape && s[1] == '[' as int && IsDigitByte(s[2])
    requires |s| == 3 || s[3] != '~' as int
    ensures Decode(s).value.event == Escape
    ensures Decode(s).value.consumed == if |s| == 3 then 3 else 4
  {
  }

  /** `ESC [ c` for a non-digit c: the cursor keys, ShiftTab, Home and End. */
  lemma CsiLetterTable(c: Byte, rest: seq<Byte>)
    requires !IsDigitByte(c)
    ensures var e := Decode([Escape, '[' as int, c] + rest).value.event;
            (c == 'A' as int <==> e == Up) && (c == 'B' as int <==> e == Down) &&
            (c == 'C' as int <==> e == Right) && (c == 'D' as int <==> e == Left) &&
            (c == 'Z' as int <==> e == ShiftTab) && (c == 'H' as int <==> e == Home) &&
            (c == 'F' as int <==> e == End) &&
            (c !in ['A' as int, 'B' as int, 'C' as int, 'D' as int, 'Z' as int, 'H' as int, 'F' as int] <==> e == Escape)
  {
  }

  /** `ESC O H` and `ESC O F` are Home and End; any other introducer is Escape. */
  lemma Ss3AndUnknownIntroducers(b1: Byte, c: Byte, rest: seq<Byte>)
    requires b1 != '[' as int
    ensures var e := Decode([Escape, b1, c] + rest).value.event;
            if b1 == 'O' as int then
              (c == 'H' as int <==> e == Home) && (c == 'F' as int <==> e == End) &&
              (c != 'H' as int && c != 'F' as int <==> e == Escape)
            else e == Escape
  {
  }

  /** The canonical byte sequence a terminal sends for each named key. */
  function KeySequence(key: int): (s: seq<Byte>)
    requires key in NamedKeys
    ensures 3 <= |s| <= 4 && s[0] == Escape
  {
    if key == Up then [Escape, '[' as int, 'A' as int]
    else if key == Down then [Escape, '[' as int, 'B' as int]
    else if key == Right then [Escape, '[' as int, 'C' as int]
    else if key == Left then [Escape, '[' as int, 'D' as int]
    else if key == ShiftTab then [Escape, '[' as int, 'Z' as int]
    else if key == Home then [Escape, '[' as int, 'H' as int]
    else if key == End then [Escape, '[' as int, 'F' as int]
    else if key == PageUp then [Escape, '[' as int, '5' as int, '~' as int]
    else if key == PageDown then [Escape, '[' as int, '6' as int, '~' as int]
    else [Escape, '[' as int, '3' as int, '~' as int]
  }

  /**
   * Every named key can be typed: its sequence decodes to exactly that key,
   * consuming exactly that sequence, whatever follows it.
   */
  lemma KeySequenceRoundTrip(key: int, rest: seq<Byte>)
    requires key in NamedKeys
    ensures Decode(KeySequence(key) + rest) == Some(Decoded(key, |KeySequence(key)|))
  {
  }

  /** No input ever decodes to a mouse event code. */
  lemma NeverMouse(s: seq<Byte>)
    requires s != []
    ensures Decode(s).value.event !in MouseCodes
  {
  }
}
