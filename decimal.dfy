/** Python's `str(n)` and `'%d' % n` for integers: decimal digits, a leading '-' for negatives. */
module Decimal {

  predicate IsDigit(c: char) {
    '0' <= c <= '9'
  }

  function DigitChar(d: nat): (c: char)
    requires d < 10
    ensures IsDigit(c)
  {
    ['0', '1', '2', '3', '4', '5', '6', '7', '8', '9'][d]
  }

  function DigitValue(c: char): (d: nat)
    requires IsDigit(c)
    ensures d < 10
  {
    (c as int - '0' as int) as nat
  }

  lemma DigitRoundTrip(d: nat)
    requires d < 10
    ensures DigitValue(DigitChar(d)) == d
  {
  }

  predicate AllDigits(s: string) {
    forall i :: 0 <= i < |s| ==> IsDigit(s[i])
  }

  /** The number a string of decimal digits denotes (leading zeros allowed). */
  function DecimalValue(s: string): nat
    requires AllDigits(s)
  {
    if |s| == 0 then 0 else 10 * DecimalValue(s[..|s| - 1]) + DigitValue(s[|s| - 1])
  }

  /** `str(n)` for n >= 0: shortest decimal form. */
  function NatToString(n: nat): (s: string)
    decreases n
  {
    if n < 10 then [DigitChar(n)] else NatToString(n / 10) + [DigitChar(n % 10)]
  }

  /** `str(n)` for any int, the form `%d` also prints. */
  function IntToString(n: int): string {
    if n < 0 then "-" + NatToString(-n) else NatToString(n)
  }

  /** NatToString is the canonical decimal form: digits only, no leading zero, value n. */
  lemma {:induction false} NatToStringCanonical(n: nat)
    ensures 1 <= |NatToString(n)|
    ensures AllDigits(NatToString(n))
    ensures NatToString(n)[0] == '0' <==> n == 0
    ensures DecimalValue(NatToString(n)) == n
  {
    var s := NatToString(n);
    if n < 10 {
      DigitRoundTrip(n);
    } else {
      NatToStringCanonical(n / 10);
      var p := NatToString(n / 10);
      assert s == p + [DigitChar(n % 10)];
      assert s[..|s| - 1] == p;
      DigitRoundTrip(n % 10);
    }
  }

  /** A printed integer starts with '-' iff it is negative, followed by the digits of |n|. */
  lemma IntToStringShape(n: int)
    ensures var s := IntToString(n);
      && 1 <= |s| && (s[0] == '-' <==> n < 0)
      && (n < 0 ==> s[1..] == NatToString(-n))
      && (n >= 0 ==> s == NatToString(n))
  {
    var m := if n < 0 then -n else n;
    NatToStringCanonical(m);
    assert IsDigit(NatToString(m)[0]);
    if n < 0 {
      assert IntToString(n) == "-" + NatToString(m);
    }
  }

  /** Distinct integers print differently, so names built from run numbers never collide. */
  lemma IntToStringInjective(a: int, b: int)
    requires IntToString(a) == IntToString(b)
    ensures a == b
  {
    IntToStringShape(a);
    IntToStringShape(b);
    var ma, mb := if a < 0 then -a else a, if b < 0 then -b else b;
    NatToStringCanonical(ma);
    NatToStringCanonical(mb);
    assert NatToString(ma) == NatToString(mb);
  }

  /** No printed integer contains an underscore, which lets file names be split back at '_'. */
  lemma IntToStringHasNoUnderscore(n: int)
    ensures '_' !in IntToString(n)
  {
    NatToStringCanonical(if n < 0 then -n else n);
    if n < 0 {
      assert IntToString(n) == "-" + NatToString(-n);
    }
  }

  /** Leading '0' characters do not change the value of a digit string. */
  lemma {:induction false} LeadingZerosKeepValue(k: nat, s: string)
    requires AllDigits(s)
    ensures AllDigits(Zeros(k) + s)
    ensures DecimalValue(Zeros(k) + s) == DecimalValue(s)
  {
    if |s| == 0 {
      assert Zeros(k) + s == Zeros(k);
      ZerosValue(k);
    } else {
      var init := s[..|s| - 1];
      LeadingZerosKeepValue(k, init);
      var t := Zeros(k) + s;
      assert t[..|t| - 1] == Zeros(k) + init;
      assert t[|t| - 1] == s[|s| - 1];
    }
  }

  function Zeros(k: nat): (z: string)
    ensures |z| == k
    ensures forall i :: 0 <= i < k ==> z[i] == '0'
  {
    if k == 0 then "" else "0" + Zeros(k - 1)
  }

  lemma {:induction false} ZerosValue(k: nat)
    ensures AllDigits(Zeros(k))
    ensures DecimalValue(Zeros(k)) == 0
  {
    if k > 0 {
      ZerosValue(k - 1);
      var z := Zeros(k);
      assert z[..k - 1] == Zeros(k - 1);
    }
  }
}
