/** Python's `str(n)` for an integer `n`: its shortest decimal spelling, with a
    leading `-` for negatives. `ParseDecimal` is the inverse used to state what
    a rendered string means. */
module Decimal {
  import opened Wrappers

  predicate IsDigit(c: char) {
    '0' <= c <= '9'
  }

  function DigitChar(d: nat): (c: char)
    requires d < 10
    ensures IsDigit(c)
  {
    ('0' as int + d) as char
  }

  function DigitValue(c: char): (d: nat)
    requires IsDigit(c)
    ensures d < 10
  {
    c as int - '0' as int
  }

  predicate AllDigits(s: string) {
    forall i | 0 <= i < |s| :: IsDigit(s[i])
  }

  /** The decimal spelling of a natural number: at least one digit, and no
      leading zero except for zero itself, which is spelled "0". */
  function NatString(n: nat): (s: string)
    ensures |s| >= 1 && AllDigits(s)
    ensures s[0] == '0' <==> n == 0
    ensures n < 10 <==> |s| == 1
    ensures n == 0 ==> s == "0"
    decreases n
  {
    if n < 10 then [DigitChar(n)]
    else NatString(n / 10) + [DigitChar(n % 10)]
  }

  /** `str(n)` for a Python `int`. */
  function DecimalString(n: int): (s: string)
    ensures |s| >= 1
    ensures n < 0 <==> s[0] == '-'
    ensures n < 0 ==> s == "-" + NatString(-n)
    ensures n >= 0 ==> s == NatString(n)
  {
    if n < 0 then "-" + NatString(-n) else NatString(n)
  }

  function ParseNat(s: string): nat
    requires AllDigits(s)
    decreases |s|
  {
    if |s| == 0 then 0
    else ParseNat(s[..|s| - 1]) * 10 + DigitValue(s[|s| - 1])
  }

  /** Reads an optionally negative run of decimal digits; anything else is `None`. */
  function ParseDecimal(s: string): Option<int> {
    if |s| >= 2 && s[0] == '-' && AllDigits(s[1..]) then Some(-(ParseNat(s[1..]) as int))
    else if |s| >= 1 && AllDigits(s) then Some(ParseNat(s))
    else None
  }

  lemma {:induction false} ParseNatString(n: nat)
    ensures ParseNat(NatString(n)) == n
    decreases n
  {
    if n >= 10 {
      var s := NatString(n);
      assert s[..|s| - 1] == NatString(n / 10);
      ParseNatString(n / 10);
    }
  }

  /** Reading back a rendered integer gives the integer. */
  lemma DecimalRoundTrip(n: int)
    ensures ParseDecimal(DecimalString(n)) == Some(n)
  {
    var s := DecimalString(n);
    if n < 0 {
      assert s[1..] == NatString(-n);
      ParseNatString(-n);
    } else {
      ParseNatString(n);
    }
  }

  /** A digit string with no leading zero that is not zero itself reads as
      a positive number. */
  lemma {:induction false} LeadingDigitPositive(s: string)
    requires |s| >= 1 && AllDigits(s) && s[0] != '0'
    ensures ParseNat(s) >= 1
    decreases |s|
  {
    if |s| > 1 {
      LeadingDigitPositive(s[..|s| - 1]);
    }
  }

  /** The spelling is canonical: the only digit string without a spurious
      leading zero that reads back as `n` is `NatString(n)`. */
  lemma {:induction false} NatStringUnique(s: string, n: nat)
    requires |s| >= 1 && AllDigits(s) && (s[0] == '0' ==> s == "0")
    requires ParseNat(s) == n
    ensures s == NatString(n)
    decreases |s|
  {
    var c := s[|s| - 1];
    assert DigitChar(DigitValue(c)) == c;
    if |s| == 1 {
      assert s[..0] == [];
      assert s == [c];
    } else {
      var t := s[..|s| - 1];
      assert t[0] == s[0] && s[0] != '0';
      LeadingDigitPositive(t);
      NatStringUnique(t, ParseNat(t));
      assert n / 10 == ParseNat(t) && n % 10 == DigitValue(c);
      assert s == t + [c];
    }
  }

  /** Distinct integers render differently. */
  lemma DecimalInjective(a: int, b: int)
    ensures DecimalString(a) == DecimalString(b) ==> a == b
  {
    DecimalRoundTrip(a);
    DecimalRoundTrip(b);
  }
}
