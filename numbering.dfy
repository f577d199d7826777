/**
  Record numbers. Orders and credits are numbered `String(count + 1).padStart(3, '0')`,
  where `count` is the number of records that already exist: the decimal digits of the
  next ordinal, left-padded with zeros to at least three characters.
*/
module Numbering {

  predicate IsDigit(c: char) {
    '0' <= c <= '9'
  }

  predicate IsDigits(s: string) {
    forall i | 0 <= i < |s| :: IsDigit(s[i])
  }

  function DigitChar(d: nat): (c: char)
    requires d < 10
    ensures IsDigit(c)
  {
    (48 + d) as char
  }

  function DigitValue(c: char): (d: nat)
    requires IsDigit(c)
    ensures d < 10
  {
    (c as int) - 48
  }

  function Pow10(k: nat): (p: nat)
    ensures p >= 1
  {
    if k == 0 then 1 else 10 * Pow10(k - 1)
  }

  /** JavaScript's `String(n)` for a non-negative integer: its decimal digits without leading zeros. */
  function DecimalString(n: nat): (s: string)
    ensures 1 <= |s| && IsDigits(s)
    ensures s[0] == '0' ==> n == 0
    decreases n
  {
    if n < 10 then [DigitChar(n)] else DecimalString(n / 10) + [DigitChar(n % 10)]
  }

  /** JavaScript's `s.padStart(width, fill)`: fill characters are added on the left until the string is `width` long. */
  function PadStart(s: string, width: nat, fill: char): (r: string)
    ensures |r| == if |s| >= width then |s| else width
    ensures r[|r| - |s|..] == s
    ensures forall i | 0 <= i < |r| - |s| :: r[i] == fill
  {
    if |s| >= width then s else seq(width - |s|, _ => fill) + s
  }

  /** The number given to a new record when `count` records already exist. */
  function RecordNumber(count: nat): string {
    PadStart(DecimalString(count + 1), 3, '0')
  }

  /** The value of a digit string, most significant digit first (leading zeros allowed). */
  function ParseDecimal(s: string): nat
    requires IsDigits(s)
  {
    if s == [] then 0 else ParseDecimal(s[..|s| - 1]) * 10 + DigitValue(s[|s| - 1])
  }

  lemma {:induction false} ParseDecimalString(n: nat)
    ensures ParseDecimal(DecimalString(n)) == n
    decreases n
  {
    var s := DecimalString(n);
    if n >= 10 {
      assert s[..|s| - 1] == DecimalString(n / 10);
      ParseDecimalString(n / 10);
    }
  }

  lemma {:induction false} ParseZeros(k: nat)
    ensures IsDigits(seq(k, _ => '0')) && ParseDecimal(seq(k, _ => '0')) == 0
  {
    if k > 0 {
      var z := seq(k, _ => '0');
      assert z[..k - 1] == seq(k - 1, _ => '0');
      ParseZeros(k - 1);
    }
  }

  /** Leading zeros do not change the value of a digit string. */
  lemma {:induction false} ParseIgnoresLeadingZeros(z: string, s: string)
    requires forall i | 0 <= i < |z| :: z[i] == '0'
    requires IsDigits(s)
    ensures IsDigits(z + s) && ParseDecimal(z + s) == ParseDecimal(s)
    decreases |s|
  {
    if s == [] {
      assert z + s == z == seq(|z|, _ => '0');
      ParseZeros(|z|);
    } else {
      assert (z + s)[..|z + s| - 1] == z + s[..|s| - 1];
      ParseIgnoresLeadingZeros(z, s[..|s| - 1]);
    }
  }

  lemma {:induction false} DecimalLength(n: nat, k: nat)
    requires 1 <= k && n < Pow10(k)
    ensures |DecimalString(n)| <= k
    decreases k
  {
    if n >= 10 {
      assert k > 1;
      assert n / 10 < Pow10(k - 1);
      DecimalLength(n / 10, k - 1);
    }
  }

  /** A record number is a digit string that parses back to the ordinal it encodes. */
  lemma RecordNumberRoundTrip(count: nat)
    ensures IsDigits(RecordNumber(count))
    ensures ParseDecimal(RecordNumber(count)) == count + 1
  {
    var s := DecimalString(count + 1);
    var r := RecordNumber(count);
    assert r == r[..|r| - |s|] + s;
    ParseIgnoresLeadingZeros(r[..|r| - |s|], s);
    ParseDecimalString(count + 1);
  }

  /** Record numbers are at least three characters long, and exactly three while fewer than 999 records exist. */
  lemma RecordNumberWidth(count: nat)
    ensures |RecordNumber(count)| >= 3
    ensures count < 999 ==> |RecordNumber(count)| == 3
  {
    if count < 999 {
      assert Pow10(3) == 1000;
      DecimalLength(count + 1, 3);
    }
  }

  /** Different counts give different record numbers. */
  lemma RecordNumberInjective(a: nat, b: nat)
    requires RecordNumber(a) == RecordNumber(b)
    ensures a == b
  {
    RecordNumberRoundTrip(a);
    RecordNumberRoundTrip(b);
  }
}
