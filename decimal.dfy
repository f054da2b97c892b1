/** Canonical decimal text of integers: what Java's `String.valueOf(long)` and Redis's
    integer replies print, and the only form Redis's `string2ll` accepts back. */
module Decimal {
  import opened Outcomes

  predicate IsDigit(c: char) {
    '0' <= c <= '9'
  }

  /** The character of a decimal digit. */
  function DigitChar(d: nat): (c: char)
    requires d < 10
    ensures IsDigit(c)
  {
    ('0' as int + d) as char
  }

  function DigitValue(c: char): (d: nat)
    requires IsDigit(c)
    ensures d < 10 && DigitChar(d) == c
  {
    (c as int - '0' as int) as nat
  }

  /** Digits of `n` with no leading zero ("0" for zero). */
  function NatToText(n: nat): (s: string)
    decreases n
  {
    if n < 10 then [DigitChar(n)] else NatToText(n / 10) + [DigitChar(n % 10)]
  }

  /** Java's and Redis's rendering of an integer: a minus sign before negative values. */
  function IntToText(n: int): string {
    if n < 0 then "-" + NatToText(-n) else NatToText(n)
  }

  /** A non-empty run of digits that starts with 1..9. */
  predicate IsPositiveNumeral(s: string) {
    |s| > 0 && s[0] != '0' && forall i :: 0 <= i < |s| ==> IsDigit(s[i])
  }

  /** Value of a run of digits, read most significant first. */
  function NumeralValue(s: string): nat
    requires forall i :: 0 <= i < |s| ==> IsDigit(s[i])
  {
    if s == [] then 0 else NumeralValue(s[..|s| - 1]) * 10 + DigitValue(s[|s| - 1])
  }

  /** Redis's `string2ll`: accepts "0", or an optional '-' followed by a positive numeral;
      rejects a '+', leading zeros, "-0", blanks and the empty string. */
  function ParseInt(s: string): (r: Option<int>)
    ensures r.Some? ==> |s| > 0
  {
    if s == "0" then Some(0)
    else if |s| > 0 && s[0] == '-' && IsPositiveNumeral(s[1..]) then Some(-(NumeralValue(s[1..]) as int))
    else if IsPositiveNumeral(s) then Some(NumeralValue(s))
    else None
  }

  lemma {:induction false} NatToTextIsNumeral(n: nat)
    ensures IsPositiveNumeral(NatToText(n)) || NatToText(n) == "0"
    ensures n > 0 ==> IsPositiveNumeral(NatToText(n))
    ensures n == 0 ==> NatToText(n) == "0"
    decreases n
  {
    if n >= 10 {
      NatToTextIsNumeral(n / 10);
      var front := NatToText(n / 10);
      var s := NatToText(n);
      assert s == front + [DigitChar(n % 10)];
      assert forall i :: 0 <= i < |s| - 1 ==> s[i] == front[i];
    }
  }

  lemma {:induction false} NatToTextValue(n: nat)
    ensures forall i :: 0 <= i < |NatToText(n)| ==> IsDigit(NatToText(n)[i])
    ensures NumeralValue(NatToText(n)) == n
    decreases n
  {
    NatToTextIsNumeral(n);
    var s := NatToText(n);
    if n >= 10 {
      NatToTextValue(n / 10);
      assert s[..|s| - 1] == NatToText(n / 10);
      assert DigitValue(s[|s| - 1]) == n % 10;
    } else {
      assert s == [DigitChar(n)];
    }
  }

  lemma {:induction false} PositiveNumeralValue(s: string)
    requires IsPositiveNumeral(s)
    ensures NumeralValue(s) > 0
    decreases |s|
  {
    if |s| > 1 {
      PositiveNumeralValue(s[..|s| - 1]);
    }
  }

  lemma {:induction false} NumeralRoundTrip(s: string)
    requires IsPositiveNumeral(s)
    ensures NatToText(NumeralValue(s)) == s
    decreases |s|
  {
    var last := DigitValue(s[|s| - 1]);
    var front := s[..|s| - 1];
    assert NumeralValue(s) == NumeralValue(front) * 10 + last;
    if |s| > 1 {
      var v := NumeralValue(front);
      PositiveNumeralValue(front);
      NumeralRoundTrip(front);
      DivideLastDigit(v, last);
      assert NatToText(v * 10 + last) == NatToText(v) + [DigitChar(last)];
      assert front + [s[|s| - 1]] == s;
    } else {
      assert s == [DigitChar(last)];
    }
  }

  lemma DivideLastDigit(v: nat, d: nat)
    requires d < 10
    ensures (v * 10 + d) / 10 == v && (v * 10 + d) % 10 == d
  {
  }

  /** Parsing what was printed gives the number back. */
  lemma ParsePrinted(n: int)
    ensures ParseInt(IntToText(n)) == Some(n)
  {
    var m := if n < 0 then -n else n;
    NatToTextIsNumeral(m);
    NatToTextValue(m);
    var t := NatToText(m);
    if n < 0 {
      assert IntToText(n)[1..] == t;
    } else if n > 0 {
      assert IntToText(n) == t && t != "0";
    }
  }

  /** Whatever parses is printed back exactly: the accepted texts are canonical. */
  lemma PrintedParse(s: string, n: int)
    requires ParseInt(s) == Some(n)
    ensures IntToText(n) == s
  {
    if s == "0" {
    } else if |s| > 0 && s[0] == '-' && IsPositiveNumeral(s[1..]) {
      PositiveNumeralValue(s[1..]);
      NumeralRoundTrip(s[1..]);
      assert "-" + s[1..] == s;
    } else {
      PositiveNumeralValue(s);
      NumeralRoundTrip(s);
    }
  }
}
