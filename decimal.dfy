/**
 * Decimal text of integers, as produced by MRtrix's `str()` and by
 * `std::ostream << int`, and the inverse reading used by `to<int>` on a
 * string of digits. Every other module builds its output text from these.
 */
module DecimalText {
  import opened Wrappers


  predicate IsDigit(c: char) {
    '0' <= c <= '9'
  }

  predicate AllDigits(s: string) {
    forall i | 0 <= i < |s| :: IsDigit(s[i])
  }

  function DigitChar(d: int): (c: char)
    requires 0 <= d < 10
    ensures IsDigit(c) && c as int - '0' as int == d
  {
    ('0' as int + d) as char
  }

  /** Decimal digits of a natural number, without leading zeros. */
  function Digits(n: nat): (s: string)
    ensures |s| >= 1 && AllDigits(s)
    ensures n == 0 <==> s == "0"
    decreases n
  {
    if n < 10 then [DigitChar(n)] else Digits(n / 10) + [DigitChar(n % 10)]
  }

  /** The digits of a number have no leading zero, unless the number is zero. */
  lemma {:induction false} DigitsNoLeadingZero(n: nat)
    ensures Digits(n)[0] != '0' || n == 0
    decreases n
  {
    if n >= 10 {
      DigitsNoLeadingZero(n / 10);
      assert Digits(n)[0] == Digits(n / 10)[0];
    }
  }

  /** Text of a signed integer: a minus sign before the digits when negative. */
  function Show(n: int): (s: string)
    ensures |s| >= 1
    ensures n >= 0 <==> AllDigits(s)
  {
    if n < 0 then
      var s := "-" + Digits(-n);
      assert !IsDigit(s[0]);
      s
    else Digits(n)
  }

  /** Value of a string of digits (leading zeros allowed). */
  function ParseDigits(s: string): (n: nat)
    requires AllDigits(s)
    decreases |s|
  {
    if s == [] then 0
    else ParseDigits(s[..|s| - 1]) * 10 + (s[|s| - 1] as int - '0' as int)
  }

  /** Value of an optionally signed decimal string. */
  function ParseInt(s: string): (r: int)
    requires (s != [] && s[0] == '-' && AllDigits(s[1..])) || AllDigits(s)
  {
    if s != [] && s[0] == '-' then -(ParseDigits(s[1..]) as int) else ParseDigits(s)
  }

  lemma {:induction false} DigitsRoundTrip(n: nat)
    ensures ParseDigits(Digits(n)) == n
    decreases n
  {
    if n >= 10 {
      var s := Digits(n);
      DigitsRoundTrip(n / 10);
      assert s[..|s| - 1] == Digits(n / 10);
    }
  }

  lemma ShowRoundTrip(n: int)
    ensures n < 0 ==> Show(n)[0] == '-' && AllDigits(Show(n)[1..])
    ensures ParseInt(Show(n)) == n
  {
    if n < 0 {
      assert Show(n)[1..] == Digits(-n);
      DigitsRoundTrip(-n);
    } else {
      DigitsRoundTrip(n);
    }
  }

  /** The text of an integer starts with a minus sign exactly when it is negative. */
  lemma ShowSign(n: int)
    ensures n < 0 <==> Show(n)[0] == '-'
  {
    if n >= 0 {
      assert IsDigit(Show(n)[0]);
    }
  }

  /** Showing is injective: two integers with the same text are equal. */
  lemma ShowInjective(a: int, b: int)
    requires Show(a) == Show(b)
    ensures a == b
  {
    ShowRoundTrip(a);
    ShowRoundTrip(b);
  }

  /** Number of leading digit characters of `s`. */
  function SpanDigits(s: string): (k: nat)
    ensures k <= |s|
    ensures AllDigits(s[..k])
    ensures k < |s| ==> !IsDigit(s[k])
    decreases |s|
  {
    if s != [] && IsDigit(s[0]) then
      var k := 1 + SpanDigits(s[1..]);
      assert s[..k] == [s[0]] + s[1..][..k - 1];
      k
    else 0
  }

  /** The digits of a number end exactly where a non-digit follows them. */
  lemma {:induction false} SpanDigitsPrefix(d: string, rest: string)
    requires AllDigits(d)
    requires rest != [] && !IsDigit(rest[0])
    ensures SpanDigits(d + rest) == |d|
    decreases |d|
  {
    if d != [] {
      assert (d + rest)[1..] == d[1..] + rest;
      SpanDigitsPrefix(d[1..], rest);
    }
  }

  /** Index of the first `c` in `s`, or |s| when there is none. */
  function FindChar(s: string, c: char): (k: nat)
    ensures k <= |s| && (k < |s| ==> s[k] == c)
    ensures forall i | 0 <= i < k :: s[i] != c
  {
    if s == [] || s[0] == c then 0 else 1 + FindChar(s[1..], c)
  }

  lemma {:induction false} FindCharSplit(a: string, c: char, b: string)
    requires forall i | 0 <= i < |a| :: a[i] != c
    ensures FindChar(a + [c] + b, c) == |a|
    decreases |a|
  {
    if a != [] {
      assert (a + [c] + b)[1..] == a[1..] + [c] + b;
      FindCharSplit(a[1..], c, b);
    }
  }

  /** Reading the text of an integer back, as the terminal does with a parameter. */
  function ReadParameter(s: string): (r: Option<int>)
  {
    if (s != [] && s[0] == '-' && AllDigits(s[1..])) || (s != [] && AllDigits(s)) then Some(ParseInt(s))
    else None
  }

  /** Reading an integer's text gives the integer back. */
  lemma ReadShow(n: int)
    ensures ReadParameter(Show(n)) == Some(n)
  {
    ShowRoundTrip(n);
  }

  /** The text of an integer holds digits and at most a minus sign. */
  lemma ShowAlphabet(n: int)
    ensures forall i | 0 <= i < |Show(n)| :: IsDigit(Show(n)[i]) || Show(n)[i] == '-'
  {
    var s := Show(n);
    if n < 0 {
      ShowRoundTrip(n);
      forall i | 1 <= i < |s| ensures IsDigit(s[i]) {
        assert s[i] == s[1..][i - 1];
      }
    }
  }
}
