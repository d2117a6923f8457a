/** Decimal text of natural numbers: String(n), padStart and Number(text). */
module Decimals {

  predicate IsDigit(c: char) {
    '0' <= c <= '9'
  }

  predicate IsDigits(s: string) {
    forall i :: 0 <= i < |s| ==> IsDigit(s[i])
  }

  function DigitOf(d: nat): (c: char)
    requires d < 10
    ensures IsDigit(c) && c as int - '0' as int == d
  {
    ('0' as int + d) as char
  }

  /** The number a text of digits denotes. */
  function ValueOf(s: string): nat
    requires IsDigits(s)
  {
    if s == [] then 0 else 10 * ValueOf(s[..|s| - 1]) + (s[|s| - 1] as int - '0' as int)
  }

  function Decimal(n: nat): (s: string)
    ensures IsDigits(s) && s != []
    ensures ValueOf(s) == n
  {
    if n < 10 then [DigitOf(n)]
    else
      var front := Decimal(n / 10);
      assert (front + [DigitOf(n % 10)])[..|front|] == front;
      front + [DigitOf(n % 10)]
  }

  function Zeros(k: nat): (s: string)
    ensures |s| == k && IsDigits(s)
  {
    seq(k, _ => '0')
  }

  /** padStart(width, '0'): never shortens a text that is already wide enough. */
  function PadStart(s: string, width: nat): string {
    if |s| >= width then s else Zeros(width - |s|) + s
  }

  lemma {:induction false} ValueOfPadded(k: nat, s: string)
    requires IsDigits(s)
    ensures ValueOf(Zeros(k) + s) == ValueOf(s)
  {
    if s == [] {
      if k > 0 {
        assert Zeros(k) + s == Zeros(k);
        assert Zeros(k)[..k - 1] == Zeros(k - 1) + s;
        ValueOfPadded(k - 1, s);
      }
    } else {
      assert (Zeros(k) + s)[..k + |s| - 1] == Zeros(k) + s[..|s| - 1];
      ValueOfPadded(k, s[..|s| - 1]);
    }
  }

  /** Whatever the width, padded numbers read back as themselves, so they are distinct. */
  lemma PaddedReadsBack(n: nat, width: nat)
    ensures IsDigits(PadStart(Decimal(n), width)) && ValueOf(PadStart(Decimal(n), width)) == n
  {
    if |Decimal(n)| < width {
      ValueOfPadded(width - |Decimal(n)|, Decimal(n));
    }
  }
}
