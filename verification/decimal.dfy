/** Decimal rendering of integers as Python's `str(int)` produces it, and a
    reader for such text used to state what a rendering means. */
module Decimal {
  import opened Options

  predicate IsDigit(ch: char)
  {
    '0' <= ch <= '9'
  }

  function DigitChar(d: nat): (ch: char)
    requires d < 10
    ensures IsDigit(ch)
  {
    ('0' as int + d) as char
  }

  function DigitValue(ch: char): nat
    requires IsDigit(ch)
  {
    ch as int - '0' as int
  }

  predicate AllDigits(s: string)
  {
    forall i :: 0 <= i < |s| ==> IsDigit(s[i])
  }

  /** Python's `str(n)` for `n >= 0`: at least one digit, no leading zero. */
  function NatToString(n: nat): (s: string)
    ensures |s| >= 1 && AllDigits(s)
    ensures n > 0 ==> s[0] != '0'
  {
    if n < 10 then [DigitChar(n)]
    else NatToString(n / 10) + [DigitChar(n % 10)]
  }

  /** Python's `str(i)`: a minus sign in front of a negative value, and no
      leading zero except in `0` itself. */
  function IntToString(i: int): (s: string)
    ensures |s| >= 1
    ensures forall k :: 0 <= k < |s| ==> IsDigit(s[k]) || (k == 0 && s[k] == '-' && i < 0)
    ensures i > 0 ==> s[0] != '0'
    ensures i < 0 ==> |s| >= 2 && s[0] == '-' && s[1] != '0'
  {
    if i < 0 then "-" + NatToString(-i) else NatToString(i)
  }

  /** The number a non-empty run of digits denotes. */
  function DigitsValue(s: string): nat
    requires AllDigits(s)
  {
    if |s| == 0 then 0
    else DigitsValue(s[..|s| - 1]) * 10 + DigitValue(s[|s| - 1])
  }

  /** Digits as `str` writes them: at least one, and no leading zero unless
      the digit is the only one. */
  predicate Canonical(s: string)
  {
    |s| >= 1 && AllDigits(s) && (|s| == 1 || s[0] != '0')
  }

  /** Reads an optionally signed decimal integer in the form `str` writes
      it; `None` for anything else, including `-0` and leading zeros. */
  function ParseInt(s: string): Option<int>
  {
    if |s| > 0 && s[0] == '-' then
      if |s| > 1 && AllDigits(s[1..]) && s[1] != '0' then Some(0 - DigitsValue(s[1..]) as int) else None
    else if Canonical(s) then Some(DigitsValue(s))
    else None
  }

  lemma {:induction false} NatToStringValue(n: nat)
    ensures DigitsValue(NatToString(n)) == n
  {
    if n >= 10 {
      var s := NatToString(n);
      assert s[..|s| - 1] == NatToString(n / 10);
      NatToStringValue(n / 10);
    }
  }

  /** Reading back a rendered integer gives the integer. */
  lemma IntToStringRoundTrip(i: int)
    ensures ParseInt(IntToString(i)) == Some(i)
  {
    if i < 0 {
      assert IntToString(i)[1..] == NatToString(-i);
      NatToStringValue(-i);
    } else {
      NatToStringValue(i);
    }
  }

  /** A digit run is worth at least its first digit. */
  lemma {:induction false} DigitsValueAtLeastFirst(s: string)
    requires |s| >= 1 && AllDigits(s)
    ensures DigitsValue(s) >= DigitValue(s[0])
  {
    if |s| > 1 {
      var init := s[..|s| - 1];
      assert init[0] == s[0];
      DigitsValueAtLeastFirst(init);
    }
  }

  /** Canonical digits are the rendering of the number they denote. */
  lemma {:induction false} CanonicalIsRendering(s: string)
    requires Canonical(s)
    ensures NatToString(DigitsValue(s)) == s
  {
    if |s| > 1 {
      var init := s[..|s| - 1];
      assert init[0] == s[0];
      DigitsValueAtLeastFirst(init);
      CanonicalIsRendering(init);
      assert s == init + [s[|s| - 1]];
    }
  }

  /** Only the rendering of an integer reads back as that integer: the
      text `str` writes is the one text per value that `ParseInt` accepts. */
  lemma ParseIntOnlyRendering(s: string, i: int)
    requires ParseInt(s) == Some(i)
    ensures s == IntToString(i)
  {
    if s[0] == '-' {
      var digits := s[1..];
      assert digits[0] == s[1];
      DigitsValueAtLeastFirst(digits);
      CanonicalIsRendering(digits);
      assert s == "-" + digits;
    } else {
      CanonicalIsRendering(s);
    }
  }
}
