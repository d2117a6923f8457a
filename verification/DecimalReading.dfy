/** The decimal point of a meter cell: what the text means, and when the parser reads that. */
module DecimalReading {
  import opened Common
  import opened Decimals
  import opened MeterParser

  function Pow10(k: nat): (p: nat)
    ensures p >= 1 && (k > 0 ==> p >= 10)
  {
    if k == 0 then 1 else 10 * Pow10(k - 1)
  }

  lemma TimesTen(a: nat, p: nat)
    ensures a * (10 * p) == 10 * (a * p)
  {
  }

  /** Digits written one after the other: the first ones count for as many tens as digits follow. */
  lemma {:induction false} ValueOfJoined(a: string, b: string)
    requires IsDigits(a) && IsDigits(b)
    ensures IsDigits(a + b) && ValueOf(a + b) == ValueOf(a) * Pow10(|b|) + ValueOf(b)
  {
    if b == [] {
      assert a + b == a;
    } else {
      var front := b[..|b| - 1];
      assert (a + b)[..|a + b| - 1] == a + front;
      ValueOfJoined(a, front);
      TimesTen(ValueOf(a), Pow10(|front|));
    }
  }

  /** x whole units and y of the p parts of the next one. */
  function PointValue(x: nat, y: nat, p: nat): real
    requires p >= 1
  {
    x as real + y as real / p as real
  }

  /** The number that the text a.b denotes when its dot is a decimal point. */
  function DecimalValue(a: string, b: string): real
    requires IsDigits(a) && IsDigits(b)
  {
    PointValue(ValueOf(a), ValueOf(b), Pow10(|b|))
  }

  /** What the cell a.b means: a dot before three digits groups thousands, any other one starts the decimals. */
  function MeantReading(a: string, b: string): Option<int>
    requires IsDigits(a) && IsDigits(b)
  {
    var value := if IsGrouped(a + "." + b, '.') then ValueOf(a + b) as real else DecimalValue(a, b);
    if value > 0.0 then Some(Round(value)) else None
  }

  lemma QuotientTimes(x: real, p: real)
    requires p >= 1.0
    ensures x / p * p == x
  {
  }

  lemma SumTimes(x: real, y: real, p: real)
    ensures (x + y) * p == x * p + y * p
  {
  }

  lemma ProductAsReal(x: nat, p: nat)
    ensures (x * p) as real == x as real * p as real
  {
  }

  /** Shifting the point to the right end gives the whole number of parts. */
  lemma ShiftPoint(x: nat, y: nat, p: nat)
    requires p >= 1
    ensures PointValue(x, y, p) * p as real == (x * p + y) as real
  {
    SumTimes(x as real, y as real / p as real, p as real);
    QuotientTimes(y as real, p as real);
    ProductAsReal(x, p);
  }

  lemma TenTimesAtMost(v: real, p: real)
    requires v >= 0.0 && p >= 10.0
    ensures 10.0 * v <= v * p
  {
    assert (p - 10.0) * v >= 0.0;
  }

  lemma QuotientNonNegative(y: real, p: real)
    requires y >= 0.0 && p >= 1.0
    ensures y / p >= 0.0
  {
  }

  lemma ZeroTimes(v: real, p: real)
    requires v * p != 0.0
    ensures v != 0.0
  {
  }

  /** A value of at most a tenth of n rounds to n only when n is 0. */
  lemma TenthRounds(v: real, n: nat)
    requires 0.0 <= 10.0 * v <= n as real
    ensures Round(v) == n <==> n == 0
  {
  }

  /** With ten or more parts to the unit, rounding gives the number of parts only when there are none. */
  lemma RoundedPointIff(x: nat, y: nat, p: nat)
    requires p >= 10
    ensures Round(PointValue(x, y, p)) == x * p + y <==> x * p + y == 0
    ensures PointValue(x, y, p) > 0.0 <==> x * p + y > 0
  {
    var v, n := PointValue(x, y, p), x * p + y;
    QuotientNonNegative(y as real, p as real);
    ShiftPoint(x, y, p);
    TenTimesAtMost(v, p as real);
    TenthRounds(v, n);
    if n > 0 {
      ZeroTimes(v, p as real);
    }
  }

  /** Rounding the decimal value gives the whole number exactly when there are no decimals or nothing but zeros. */
  lemma RoundedIsWholeIff(a: string, b: string)
    requires IsDigits(a) && IsDigits(b)
    ensures Round(DecimalValue(a, b)) == ValueOf(a + b) <==> b == [] || ValueOf(a + b) == 0
    ensures DecimalValue(a, b) > 0.0 <==> ValueOf(a + b) > 0
  {
    ValueOfJoined(a, b);
    if b == [] {
      assert a + b == a;
    } else {
      RoundedPointIff(ValueOf(a), ValueOf(b), Pow10(|b|));
    }
  }

  /**
   * The parser reads a.b, alone or before a unit, as what it means if and only if the dot
   * groups thousands, no decimals follow it, or all digits are zero.
   */
  lemma DecimalReadsRightIff(a: string, b: string, t: string, other: OtherNumber)
    requires IsDigits(a) && IsDigits(b) && (t == [] || IsUnitTail(t))
    ensures ParseMeter(Text(a + "." + b + t), other) == MeantReading(a, b) <==>
            IsGrouped(a + "." + b, '.') || b == [] || ValueOf(a + b) == 0
  {
    DecimalPointIsDropped(a, b, t, other);
    RoundedIsWholeIff(a, b);
    RoundOfWhole(ValueOf(a + b));
  }

  lemma TwoDigits(s: string)
    requires |s| == 2 && IsDigits(s)
    ensures ValueOf(s) == 10 * (s[0] as int - '0' as int) + (s[1] as int - '0' as int)
  {
    assert s[..1][..0] == [] && s[..1][0] == s[0];
    assert ValueOf(s[..1]) == s[0] as int - '0' as int;
  }

  lemma TwelveFortyFive()
    ensures IsDigits("12") && IsDigits("45") && ValueOf("12") == 12 && ValueOf("45") == 45 && Pow10(2) == 100
  {
    TwoDigits("12");
    TwoDigits("45");
    assert Pow10(2) == 10 * Pow10(1) && Pow10(1) == 10 * Pow10(0);
  }

  lemma TwoDecimalsAreNoGroup(a: string, b: string)
    requires |a| == 2 && |b| == 2 && IsDigits(a)
    ensures !IsGrouped(a + "." + b, '.')
  {
    assert (a + "." + b)[1] == a[1];
  }

  /** 12.45 hours are read as 1245. */
  lemma TwelvePointFortyFive(other: OtherNumber)
    ensures ParseMeter(Text("12" + "." + "45"), other) == Some(1245)
    ensures IsDigits("12") && IsDigits("45") && MeantReading("12", "45") == Some(12)
  {
    var a, b := "12", "45";
    TwelveFortyFive();
    ValueOfJoined(a, b);
    DecimalPointIsDropped(a, b, [], other);
    assert a + "." + b + [] == a + "." + b;
    TwoDecimalsAreNoGroup(a, b);
    assert DecimalValue(a, b) == 12.45;
  }
}
