/**
 * Decimal rendering of non-negative integers, as JavaScript's `String(n)`
 * produces it for a safe integer, and `String.prototype.padStart` with a
 * one-character pad.
 */
module Decimal {

  predicate IsDigit(c: char) {
    '0' <= c <= '9'
  }

  function DigitChar(d: nat): (c: char)
    requires d < 10
    ensures IsDigit(c) && (c as int) - ('0' as int) == d
  {
    (('0' as int) + d) as char
  }

  /** The value a string of decimal digits denotes (most significant first). */
  function DigitsValue(s: string): int
  {
    if s == [] then 0
    else DigitsValue(s[..|s| - 1]) * 10 + ((s[|s| - 1] as int) - ('0' as int))
  }

  /** `String(n)` for a non-negative integer: shortest decimal form. */
  function NatToString(n: nat): (s: string)
    ensures |s| >= 1 && IsDigit(s[0])
    ensures |s| > 1 ==> s[0] != '0'
    ensures (|s| == 1) == (n < 10)
  {
    if n < 10 then [DigitChar(n)]
    else NatToString(n / 10) + [DigitChar(n % 10)]
  }

  /** Every character `NatToString` writes is a decimal digit. */
  lemma {:induction false} NatToStringDigits(n: nat)
    ensures forall i :: 0 <= i < |NatToString(n)| ==> IsDigit(NatToString(n)[i])
  {
    if n >= 10 {
      NatToStringDigits(n / 10);
    }
  }

  /** Reading back what `NatToString` writes gives the number again. */
  lemma {:induction false} NatToStringRoundTrip(n: nat)
    ensures DigitsValue(NatToString(n)) == n
  {
    if n >= 10 {
      var s := NatToString(n);
      assert s[..|s| - 1] == NatToString(n / 10);
      NatToStringRoundTrip(n / 10);
    }
  }

  /** `s.padStart(len, [c])`: pad on the left with `c` up to length `len`. */
  function PadStart(s: string, len: nat, c: char): (r: string)
    ensures |r| == if |s| >= len then |s| else len
    ensures r[|r| - |s|..] == s
    ensures forall i :: 0 <= i < |r| - |s| ==> r[i] == c
  {
    if |s| >= len then s else seq(len - |s|, _ => c) + s
  }

  /** `String(n).padStart(2, "0")`: for n < 100, two digits denoting n. */
  function ZeroPad2(n: nat): (s: string)
    requires n < 100
    ensures |s| == 2 && IsDigit(s[0]) && IsDigit(s[1]) && DigitsValue(s) == n
  {
    NatToStringRoundTrip(n);
    var s := PadStart(NatToString(n), 2, '0');
    assert n < 10 ==> s == ['0'] + NatToString(n) && s[..1] == ['0'];
    assert n >= 10 ==> s == NatToString(n) && IsDigit(s[1]) by {
      if n >= 10 {
        NatToStringDigits(n);
      }
    }
    s
  }
}
