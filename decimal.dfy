/**
  Decimal text of integers, as the core writes and reads it: fmt's `%d`, the 4-digit
  year of the time layout "2006", and strconv.Atoi on a 64-bit platform.
*/
module Decimal {
  import opened Wrappers

  const MinInt64: int := -0x8000_0000_0000_0000
  const MaxInt64: int := 0x7fff_ffff_ffff_ffff

  predicate IsDigit(c: char) { '0' <= c <= '9' }

  predicate AllDigits(s: string) { forall i :: 0 <= i < |s| ==> IsDigit(s[i]) }

  function DigitChar(d: nat): (c: char)
    requires d < 10
    ensures IsDigit(c)
  {
    ('0' as int + d) as char
  }

  function DigitValue(c: char): nat
    requires IsDigit(c)
  {
    c as int - '0' as int
  }

  /** The digits of n without a leading zero, as `%d` writes a non-negative number. */
  function NatToString(n: nat): (s: string)
    ensures |s| >= 1 && AllDigits(s)
  {
    if n < 10 then [DigitChar(n)] else NatToString(n / 10) + [DigitChar(n % 10)]
  }

  /** `%d` of any int: a minus sign, then the digits of the magnitude. */
  function IntToString(i: int): string
  {
    if i < 0 then "-" + NatToString(-i) else NatToString(i)
  }

  /** The value of a string of digits; leading zeros are allowed. */
  function DigitsValue(s: string): nat
    requires AllDigits(s)
  {
    if s == [] then 0 else 10 * DigitsValue(s[..|s| - 1]) + DigitValue(s[|s| - 1])
  }

  /** An optional sign followed by at least one digit, with no bound on the value. */
  function ParseInt(s: string): Option<int>
  {
    if |s| > 0 && (s[0] == '-' || s[0] == '+') then
      if |s| > 1 && AllDigits(s[1..]) then
        var magnitude: int := DigitsValue(s[1..]);
        Some(if s[0] == '-' then -magnitude else magnitude)
      else None
    else if |s| > 0 && AllDigits(s) then Some(DigitsValue(s))
    else None
  }

  /**
    strconv.Atoi with 64-bit int: rejects an empty string, a lone sign, any character
    other than an ASCII digit after the optional sign, and values outside int64.
  */
  function Atoi(s: string): Option<int>
  {
    match ParseInt(s)
    case Some(v) => if MinInt64 <= v <= MaxInt64 then Some(v) else None
    case None => None
  }

  function Zeros(k: nat): (z: string)
    ensures |z| == k && AllDigits(z)
  {
    if k == 0 then "" else Zeros(k - 1) + "0"
  }

  /** Digits of n padded with leading zeros to at least four characters. */
  function Pad4(n: nat): (s: string)
    ensures |s| >= 4 && AllDigits(s)
  {
    var d := NatToString(n);
    if |d| < 4 then Zeros(4 - |d|) + d else d
  }

  /** The year as the layout element "2006" writes it (time's appendInt with width 4). */
  function YearString(y: int): string
  {
    if y < 0 then "-" + Pad4(-y) else Pad4(y)
  }

  lemma {:induction false} NatToStringRoundTrip(n: nat)
    ensures DigitsValue(NatToString(n)) == n
  {
    if n >= 10 {
      var s := NatToString(n);
      assert s[..|s| - 1] == NatToString(n / 10);
      NatToStringRoundTrip(n / 10);
    }
  }

  /** Reading back what `%d` wrote gives the number again, for every int. */
  lemma IntToStringRoundTrip(i: int)
    ensures ParseInt(IntToString(i)) == Some(i)
  {
    var s := IntToString(i);
    if i < 0 {
      assert s[0] == '-' && s[1..] == NatToString(-i);
      NatToStringRoundTrip(-i);
      assert DigitsValue(s[1..]) == -i;
    } else {
      assert s == NatToString(i);
      assert IsDigit(s[0]);
      NatToStringRoundTrip(i);
      assert DigitsValue(s) == i;
    }
  }

  /** Atoi inverts `%d` on every int64. */
  lemma AtoiOfIntToString(i: int)
    requires MinInt64 <= i <= MaxInt64
    ensures Atoi(IntToString(i)) == Some(i)
  {
    IntToStringRoundTrip(i);
  }

  /** Distinct numbers have distinct `%d` texts. */
  lemma IntToStringInjective(a: int, b: int)
    requires IntToString(a) == IntToString(b)
    ensures a == b
  {
    IntToStringRoundTrip(a);
    IntToStringRoundTrip(b);
  }

  lemma {:induction false} ZerosValue(k: nat)
    ensures DigitsValue(Zeros(k)) == 0
  {
    if k > 0 {
      assert Zeros(k)[..k - 1] == Zeros(k - 1);
      ZerosValue(k - 1);
    }
  }

  /** Leading zeros do not change the value of a digit string. */
  lemma {:induction false} LeadingZerosValue(k: nat, s: string)
    requires AllDigits(s)
    ensures AllDigits(Zeros(k) + s) && DigitsValue(Zeros(k) + s) == DigitsValue(s)
    decreases |s|
  {
    var t := Zeros(k) + s;
    assert AllDigits(t);
    if s == [] {
      assert t == Zeros(k);
      ZerosValue(k);
    } else {
      assert t[..|t| - 1] == Zeros(k) + s[..|s| - 1];
      LeadingZerosValue(k, s[..|s| - 1]);
    }
  }

  lemma Pad4Value(n: nat)
    ensures DigitsValue(Pad4(n)) == n
  {
    var d := NatToString(n);
    NatToStringRoundTrip(n);
    if |d| < 4 {
      LeadingZerosValue(4 - |d|, d);
    }
  }

  lemma YearStringSign(y: int)
    ensures |YearString(y)| >= 1
    ensures YearString(y)[0] == '-' <==> y < 0
    ensures y < 0 ==> YearString(y)[1..] == Pad4(-y)
  {
    if y >= 0 {
      assert IsDigit(Pad4(y)[0]);
    }
  }

  lemma Pad4Injective(a: nat, b: nat)
    requires Pad4(a) == Pad4(b)
    ensures a == b
  {
    Pad4Value(a);
    Pad4Value(b);
  }

  /** The year text determines the year, so two different years never print alike. */
  lemma YearStringInjective(a: int, b: int)
    requires YearString(a) == YearString(b)
    ensures a == b
  {
    YearStringSign(a);
    YearStringSign(b);
    var sa, sb := YearString(a), YearString(b);
    if a < 0 {
      assert b < 0 by {
        assert sa[0] == sb[0];
      }
      assert Pad4(-a) == Pad4(-b) by {
        assert sa[1..] == sb[1..];
      }
      Pad4Injective(-a, -b);
    } else {
      assert b >= 0 by {
        assert sa[0] == sb[0];
      }
      assert Pad4(a) == Pad4(b) by {
        assert sa == Pad4(a) && sb == Pad4(b);
      }
      Pad4Injective(a, b);
    }
  }
}
