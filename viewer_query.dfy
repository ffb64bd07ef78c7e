/**
 * The number prompt of the viewer (`query_int`): an event loop feeds key
 * events to a callback that collects the digits typed, lets Backspace take
 * the last one back and stops at Return; the collected response is then
 * read as a number and checked against the allowed range.
 */
module ViewerQuery {
  import opened Wrappers
  import opened DecimalText
  import opened VtControl

  /** A key event that is a decimal digit. */
  predicate IsDigitKey(event: int) {
    '0' as int <= event <= '9' as int
  }

  /** The key event of a digit character. */
  function KeyOf(c: char): int {
    c as int
  }

  /** The key events that type a string. */
  function KeysOf(s: string): (keys: seq<int>)
    ensures |keys| == |s| && forall i | 0 <= i < |s| :: keys[i] == s[i] as int
  {
    seq(|s|, i requires 0 <= i < |s| => KeyOf(s[i]))
  }

  /**
   * The response after one event other than Return: a digit is appended,
   * Backspace removes the last character if there is one, and any other
   * event leaves the response as it is.
   */
  function Edit(response: string, event: int): (r: string)
    ensures AllDigits(response) ==> AllDigits(r)
    ensures IsDigitKey(event) ==> |r| == |response| + 1 && r[..|response|] == response
    ensures event == Backspace ==> |r| == if response == [] then 0 else |response| - 1
    ensures !IsDigitKey(event) ==> |r| <= |response| && r == response[..|r|]
  {
    if IsDigitKey(event) then response + [event as char]
    else if event == Backspace then (if |response| > 0 then response[..|response| - 1] else response)
    else response
  }

  /** Backspace takes back the digit just typed. */
  lemma BackspaceUndoesDigit(response: string, event: int)
    requires IsDigitKey(event)
    ensures Edit(Edit(response, event), Backspace) == response
  {
  }

  /** The response the loop has collected when Return arrives, or when the events run out. */
  function Entered(response: string, events: seq<int>): string
    decreases |events|
  {
    if events == [] || events[0] == CarriageReturn then response
    else Entered(Edit(response, events[0]), events[1..])
  }

  /** Every response the loop collects is made of digits. */
  lemma {:induction false} EnteredDigits(response: string, events: seq<int>)
    requires AllDigits(response)
    ensures AllDigits(Entered(response, events))
    decreases |events|
  {
    if events != [] && events[0] != CarriageReturn {
      EnteredDigits(Edit(response, events[0]), events[1..]);
    }
  }

  /** Typing a string of digits appends it to the response. */
  lemma {:induction false} EnteredKeys(response: string, s: string, rest: seq<int>)
    requires AllDigits(s)
    ensures Entered(response, KeysOf(s) + rest) == Entered(response + s, rest)
    decreases |s|
  {
    if s == [] {
      assert KeysOf(s) + rest == rest && response + s == response;
    } else {
      var keys := KeysOf(s) + rest;
      assert Entered(response, keys) == Entered(response + [s[0]], KeysOf(s[1..]) + rest) by {
        assert keys[0] == s[0] as int && IsDigitKey(keys[0]) && keys[0] != CarriageReturn;
        assert keys[1..] == KeysOf(s[1..]) + rest;
      }
      EnteredKeys(response + [s[0]], s[1..], rest);
      Associate(response, [s[0]], s[1..]);
      assert [s[0]] + s[1..] == s;
    }
  }

  /**
   * `get_value`: the number read from a non-empty response, assigned even
   * when it is out of range, and whether the response was non-empty and
   * the number lies within [vmin, vmax].
   */
  function Answer(response: string, vmin: int, vmax: int): (r: (Option<int>, bool))
    requires AllDigits(response)
    ensures r.0.Some? <==> response != []
    ensures r.1 <==> r.0.Some? && vmin <= r.0.value <= vmax
    ensures r.0.Some? ==> Show(r.0.value) == response || response[0] == '0'
  {
    if response != [] then
      var value := ParseDigits(response) as int;
      ParseLeadingDigit(response);
      (Some(value), vmin <= value <= vmax)
    else (None, false)
  }

  /** The digits of a number without leading zeros are the number's own text. */
  lemma {:induction false} ParseLeadingDigit(s: string)
    requires AllDigits(s) && s != []
    ensures s[0] != '0' ==> Show(ParseDigits(s)) == s
    decreases |s|
  {
    if s[0] != '0' {
      ParseShow(s);
    }
  }

  /** Digits without a leading zero are shown back as they were read. */
  lemma {:induction false} ParseShow(s: string)
    requires AllDigits(s) && s != [] && s[0] != '0'
    ensures Digits(ParseDigits(s)) == s
    decreases |s|
  {
    var n := ParseDigits(s);
    if |s| == 1 {
      assert s[..|s| - 1] == [] && s[|s| - 1] == s[0];
      assert ParseDigits(s[..|s| - 1]) == 0;
      assert n == s[0] as int - '0' as int;
      assert [DigitChar(n)] == s;
    } else {
      var p := s[..|s| - 1];
      assert p[0] == s[0];
      ParseShow(p);
      ParseDigitsSnoc(s);
      assert n / 10 == ParseDigits(p) && n % 10 == s[|s| - 1] as int - '0' as int;
      assert n >= 10 by {
        ParseDigitsPositive(p);
      }
    }
  }

  /** The value of digits is ten times the value of all but the last, plus the last. */
  lemma ParseDigitsSnoc(s: string)
    requires AllDigits(s) && |s| >= 2
    ensures ParseDigits(s) / 10 == ParseDigits(s[..|s| - 1])
    ensures ParseDigits(s) % 10 == s[|s| - 1] as int - '0' as int
  {
  }

  /** Digits that do not start with 0 have a positive value. */
  lemma ParseDigitsPositive(s: string)
    requires AllDigits(s) && s != [] && s[0] != '0'
    ensures ParseDigits(s) >= 1
  {
  }

  /**
   * Typing the digits of a number and Return makes the prompt answer that
   * number, accepted exactly when it lies in range.
   */
  lemma QueryNumber(n: nat, vmin: int, vmax: int, rest: seq<int>)
    ensures var response := Entered("", KeysOf(Digits(n)) + [CarriageReturn] + rest);
      AllDigits(response) && Answer(response, vmin, vmax) == (Some(n), vmin <= n <= vmax)
  {
    TypedNumber(n, rest);
    DigitsRoundTrip(n);
  }

  /** Typing the digits of a number and Return leaves exactly those digits as the response. */
  lemma TypedNumber(n: nat, rest: seq<int>)
    ensures Entered("", KeysOf(Digits(n)) + [CarriageReturn] + rest) == Digits(n)
  {
    var tail := [CarriageReturn] + rest;
    EnteredKeys("", Digits(n), tail);
    assert KeysOf(Digits(n)) + [CarriageReturn] + rest == KeysOf(Digits(n)) + tail;
    assert "" + Digits(n) == Digits(n);
  }

  /** The callback object of `query_int`: the allowed range and the response typed so far. */
  class QueryCallBack {
    const vmin: int
    const vmax: int
    var response: string

    ghost predicate Valid()
      reads this
    {
      AllDigits(response)
    }

    constructor (vmin: int, vmax: int)
      ensures Valid() && response == "" && this.vmin == vmin && this.vmax == vmax
    {
      this.vmin, this.vmax := vmin, vmax;
      response := "";
    }

    /** `operator()`: stop at Return, otherwise edit the response and go on. */
    method Handle(event: int) returns (more: bool)
      requires Valid()
      modifies this
      ensures Valid()
      ensures more <==> event != CarriageReturn
      ensures response == if more then Edit(old(response), event) else old(response)
    {
      if event == CarriageReturn {
        return false;
      }
      if '0' as int <= event <= '9' as int {
        response := response + [event as char];
      } else if event == Backspace {
        if |response| > 0 {
          response := response[..|response| - 1];
        }
      }
      return true;
    }

    /** `get_value`: the number typed, if any, and whether it is acceptable. */
    method GetValue() returns (value: Option<int>, ok: bool)
      requires Valid()
      ensures (value, ok) == Answer(response, vmin, vmax)
    {
      if |response| > 0 {
        var v := ParseDigits(response);
        value := Some(v);
        return value, vmin <= v <= vmax;
      }
      return None, false;
    }
  }

  /**
   * `query_int`: the prompt's event loop hands the key events to a fresh
   * callback until it stops at Return (or the events run out), then the
   * callback's answer is returned.
   */
  method QueryInt(events: seq<int>, vmin: int, vmax: int) returns (value: Option<int>, ok: bool)
    ensures AllDigits(Entered("", events)) && (value, ok) == Answer(Entered("", events), vmin, vmax)
  {
    var callback := new QueryCallBack(vmin, vmax);
    var i := 0;
    var more := true;
    while more && i < |events|
      invariant 0 <= i <= |events|
      invariant callback.Valid() && callback.vmin == vmin && callback.vmax == vmax
      invariant more ==> Entered(callback.response, events[i..]) == Entered("", events)
      invariant !more ==> callback.response == Entered("", events)
      decreases |events| - i
    {
      assert events[i..][1..] == events[i + 1..];
      more := callback.Handle(events[i]);
      i := i + 1;
    }
    assert more ==> events[i..] == [];
    EnteredDigits("", events);
    value, ok := callback.GetValue();
  }
}
