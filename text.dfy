/** Decimal rendering of integers, as an f-string renders an `int`, and the
    parser that undoes it; plus a substring test used to state what a
    chart title mentions. */
module Text {

  predicate IsDigit(ch: char) {
    '0' <= ch <= '9'
  }

  function DigitChar(d: nat): (ch: char)
    requires d < 10
    ensures IsDigit(ch)
  {
    ['0', '1', '2', '3', '4', '5', '6', '7', '8', '9'][d]
  }

  function DigitValue(ch: char): (d: nat)
    requires IsDigit(ch)
    ensures d < 10
  {
    (ch as int - '0' as int) as nat
  }

  /** Decimal digits of n, most significant first, without leading zeros. */
  function NatToString(n: nat): (s: string)
    ensures |s| >= 1
    ensures forall i :: 0 <= i < |s| ==> IsDigit(s[i])
    ensures s[0] == '0' ==> n == 0
    ensures n < 10 <==> |s| == 1
  {
    if n < 10 then [DigitChar(n)] else NatToString(n / 10) + [DigitChar(n % 10)]
  }

  predicate AllDigits(s: string) {
    forall i :: 0 <= i < |s| ==> IsDigit(s[i])
  }

  /** An optional minus sign followed by at least one digit. */
  predicate IsNumeral(s: string) {
    |s| >= 1 && if s[0] == '-' then |s| >= 2 && AllDigits(s[1..]) else AllDigits(s)
  }

  /** `str(n)` for a Python int: a minus sign, then the digits of |n|. */
  function IntToString(n: int): (s: string)
    ensures IsNumeral(s)
    ensures s[0] == '-' <==> n < 0
    ensures s[0] == '0' ==> s == "0"
    ensures n < 0 ==> s[1] != '0'
  {
    if n < 0 then
      var digits := NatToString(-n);
      assert (['-'] + digits)[1..] == digits;
      ['-'] + digits
    else NatToString(n)
  }

  function ParseNat(s: string): nat
    requires AllDigits(s)
  {
    if s == [] then 0 else ParseNat(s[..|s| - 1]) * 10 + DigitValue(s[|s| - 1])
  }

  function ParseInt(s: string): int
    requires IsNumeral(s)
  {
    if s[0] == '-' then -(ParseNat(s[1..]) as int) else ParseNat(s)
  }

  lemma DigitRoundTrip(d: nat)
    requires d < 10
    ensures DigitValue(DigitChar(d)) == d
  {
  }

  lemma {:induction false} NatRoundTrip(n: nat)
    ensures ParseNat(NatToString(n)) == n
  {
    var s := NatToString(n);
    if n < 10 {
      DigitRoundTrip(n);
      assert s[..|s| - 1] == [];
    } else {
      NatRoundTrip(n / 10);
      DigitRoundTrip(n % 10);
      assert s[..|s| - 1] == NatToString(n / 10);
    }
  }

  /** Rendering loses nothing: the text of an integer parses back to it. */
  lemma {:induction false} IntRoundTrip(n: int)
    ensures ParseInt(IntToString(n)) == n
  {
    if n < 0 {
      NegativeRoundTrip(n);
    } else {
      var digits := NatToString(n);
      NatRoundTrip(n);
      assert IntToString(n) == digits;
      assert digits[0] != '-' by {
        assert IsDigit(digits[0]);
      }
    }
  }

  lemma NegativeRoundTrip(n: int)
    requires n < 0
    ensures ParseInt(IntToString(n)) == n
  {
    var digits := NatToString(-n);
    assert IntToString(n) == ['-'] + digits;
    ParseSigned(digits);
    NatRoundTrip(-n);
  }

  /** A minus sign in front of digits negates their value. */
  lemma ParseSigned(digits: string)
    requires |digits| >= 1 && AllDigits(digits)
    ensures IsNumeral(['-'] + digits)
    ensures ParseInt(['-'] + digits) == -(ParseNat(digits) as int)
  {
    assert (['-'] + digits)[1..] == digits;
  }

  /** `needle` occurs in `hay` at some position. */
  ghost predicate Contains(hay: string, needle: string) {
    exists i :: OccursAt(hay, needle, i)
  }

  predicate OccursAt(hay: string, needle: string, i: int) {
    0 <= i <= |hay| - |needle| && hay[i..i + |needle|] == needle
  }
}
