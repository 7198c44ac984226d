/** Decimal text as the page produces it: `String(n)` for integers and
    `padStart(2, '0')` for the two-digit fields of the clock and the date.
    A digit parser is the inverse used to state round trips. */
module Decimal {

  import opened Options

  predicate IsDigit(c: char) {
    '0' <= c <= '9'
  }

  predicate AllDigits(s: string) {
    forall i :: 0 <= i < |s| ==> IsDigit(s[i])
  }

  function Pow10(k: nat): (p: nat)
    ensures p >= 1
  {
    if k == 0 then 1 else 10 * Pow10(k - 1)
  }

  function DigitValue(c: char): (d: nat)
    requires IsDigit(c)
    ensures d < 10
  {
    c as int - '0' as int
  }

  function DigitChar(d: nat): (c: char)
    requires d < 10
    ensures IsDigit(c)
    ensures DigitValue(c) == d
  {
    ('0' as int + d) as char
  }

  /** `String(n)` for a non-negative integer: shortest decimal form, no
      leading zero except for zero itself. */
  function NatToString(n: nat): (r: string)
    ensures 1 <= |r|
    ensures AllDigits(r)
    ensures r[0] == '0' <==> n == 0
    decreases n
  {
    if n < 10 then [DigitChar(n)] else NatToString(n / 10) + [DigitChar(n % 10)]
  }

  /** `String(i)` for any integer: a minus sign, then the magnitude. */
  function IntToString(i: int): (r: string)
    ensures 1 <= |r|
    ensures i >= 0 <==> r[0] != '-'
    ensures i < 0 ==> r[1..] == NatToString(-i)
  {
    if i < 0 then "-" + NatToString(-i) else NatToString(i)
  }

  /** The value of a string of decimal digits, most significant first. */
  function DigitsValue(s: string): (v: nat)
    requires AllDigits(s)
    ensures v < Pow10(|s|)
    decreases |s|
  {
    if |s| == 0 then 0
    else
      var v' := DigitsValue(s[..|s| - 1]);
      assert v' * 10 <= (Pow10(|s| - 1) - 1) * 10;
      v' * 10 + DigitValue(s[|s| - 1])
  }

  function ParseNat(s: string): (r: Option<nat>)
    ensures r.Some? <==> 1 <= |s| && AllDigits(s)
  {
    if 1 <= |s| && AllDigits(s) then Some(DigitsValue(s)) else None
  }

  function ParseInt(s: string): (r: Option<int>)
  {
    if 1 <= |s| && s[0] == '-' then
      match ParseNat(s[1..])
      case Some(n) => Some(-(n as int))
      case None => None
    else
      match ParseNat(s)
      case Some(n) => Some(n)
      case None => None
  }

  lemma {:induction false} NatToStringRoundTrip(n: nat)
    ensures ParseNat(NatToString(n)) == Some(n)
    decreases n
  {
    var s := NatToString(n);
    if n >= 10 {
      NatToStringRoundTrip(n / 10);
      assert s[..|s| - 1] == NatToString(n / 10);
    }
  }

  lemma IntToStringRoundTrip(i: int)
    ensures ParseInt(IntToString(i)) == Some(i)
  {
    if i < 0 {
      NatToStringRoundTrip(-i);
      assert IntToString(i)[1..] == NatToString(-i);
    } else {
      NatToStringRoundTrip(i);
    }
  }

  /** `String(n)` has at most k digits exactly when n is below 10^k. */
  lemma {:induction false} NatToStringLength(n: nat, k: nat)
    requires 1 <= k
    ensures |NatToString(n)| <= k <==> n < Pow10(k)
    decreases n
  {
    if n >= 10 {
      if k == 1 {
        assert Pow10(1) == 10;
      } else {
        NatToStringLength(n / 10, k - 1);
        assert Pow10(k) == 10 * Pow10(k - 1);
        assert n / 10 < Pow10(k - 1) <==> n < 10 * Pow10(k - 1);
      }
    } else {
      assert Pow10(k) == 10 * Pow10(k - 1);
    }
  }

  function Repeat(c: char, k: nat): (r: string)
    ensures |r| == k
    ensures forall i :: 0 <= i < k ==> r[i] == c
  {
    seq(k, _ => c)
  }

  /** `s.padStart(width, fill)` with a one-character fill: the fill is
      prepended until the width is reached, and a longer string is kept
      whole, never truncated. */
  function PadStart(s: string, width: nat, fill: char): (r: string)
    ensures |r| == if |s| < width then width else |s|
    ensures r[|r| - |s|..] == s
    ensures forall i :: 0 <= i < |r| - |s| ==> r[i] == fill
  {
    if |s| < width then Repeat(fill, width - |s|) + s else s
  }

  /** The page's `pad`: `String(n).padStart(2, '0')`. */
  function Pad(n: nat): string {
    PadStart(NatToString(n), 2, '0')
  }

  /** Below one hundred, `pad` gives exactly two digits that read back as n. */
  lemma PadTwoDigits(n: nat)
    requires n < 100
    ensures |Pad(n)| == 2
    ensures ParseNat(Pad(n)) == Some(n)
  {
    var p := Pad(n);
    if n < 10 {
      assert p == ['0', DigitChar(n)];
      assert p[..1] == "0" && p[..1][..0] == "";
      assert DigitsValue(p[..1]) == 0;
    } else {
      NatToStringLength(n, 1);
      NatToStringLength(n, 2);
      NatToStringRoundTrip(n);
    }
  }

  /** From one hundred up, `pad` is plain `String(n)`: nothing is cut off. */
  lemma PadKeepsWide(n: nat)
    requires 100 <= n
    ensures Pad(n) == NatToString(n)
  {
  }

}
