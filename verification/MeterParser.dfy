/** The tolerant reading of a meter cell of the import sheet. */
module MeterParser {
  import opened Common
  import opened Decimals
  import opened TextTools

  /** A cell as the sheet reader hands it over: blank, a native number, or text. */
  datatype RawCell = Blank | Num(value: real) | Text(text: string)

  /** What JavaScript's Number() makes of a text that is not a plain run of digits; None for NaN and Infinity. */
  type OtherNumber = string -> Option<real>

  const UNITS: set<string> := {"h", "hr", "hrs", "horas"}

  /** The whole text matches \s*(h|hr|hrs|horas)\.?\s*, ignoring case. */
  predicate IsUnitTail(t: string) {
    var core := Trim(t);
    var word := if core != [] && core[|core| - 1] == '.' then core[..|core| - 1] else core;
    Lower(word) in UNITS
  }

  /** Drop the leftmost unit tail, searching from position `from`. */
  function StripUnitFrom(s: string, from: nat): string
    requires from <= |s|
    decreases |s| - from
  {
    if IsUnitTail(s[from..]) then s[..from]
    else if from == |s| then s
    else StripUnitFrom(s, from + 1)
  }

  /** The text matches ^\d{1,3}(sep\d{3})+$. */
  predicate IsGrouped(s: string, sep: char) {
    |s| >= 4 && s[|s| - 4] == sep && IsDigits(s[|s| - 3..])
    && var front := s[..|s| - 4]; ((1 <= |front| <= 3 && IsDigits(front)) || IsGrouped(front, sep))
  }

  function Without(s: string, drop: set<char>): string {
    if s == [] then [] else (if s[0] in drop then [] else [s[0]]) + Without(s[1..], drop)
  }

  /** The three branches of the separator heuristic. */
  function Normalize(s: string): string {
    if IsGrouped(s, '.') then Without(s, {'.'})
    else if IsGrouped(s, ',') then Without(s, {','})
    else Without(s, {'.', ','})
  }

  function ToNumber(s: string, other: OtherNumber): Option<real> {
    if s == [] then Some(0.0)
    else if IsDigits(s) then Some(ValueOf(s) as real)
    else other(s)
  }

  /** Math.round: half goes up. */
  function Round(r: real): (n: int)
    ensures r - 0.5 < n as real <= r + 0.5
  {
    (r + 0.5).Floor
  }

  function ParseMeter(raw: RawCell, other: OtherNumber): Option<int> {
    match raw
    case Blank => None
    case Num(r) => if r > 0.0 then Some(Round(r)) else None
    case Text(t) =>
      var str := Trim(t);
      if str == [] then None
      else
        var number := ToNumber(Normalize(Trim(StripUnitFrom(str, 0))), other);
        if number.Some? && number.value > 0.0 then Some(Round(number.value)) else None
  }

  // -------------------------------------------------- what the separators mean

  predicate IsNumeral(c: char) {
    IsDigit(c) || c == '.' || c == ','
  }

  /** Digits and separators only, at least one character. */
  predicate IsNumeralText(s: string) {
    s != [] && forall i :: 0 <= i < |s| ==> IsNumeral(s[i])
  }

  lemma {:induction false} GroupedHasOneSeparator(s: string, sep: char)
    requires IsGrouped(s, sep)
    ensures forall i :: 0 <= i < |s| ==> IsDigit(s[i]) || s[i] == sep
  {
    var front := s[..|s| - 4];
    if !(1 <= |front| <= 3 && IsDigits(front)) {
      GroupedHasOneSeparator(front, sep);
    }
    forall i | 0 <= i < |s|
      ensures IsDigit(s[i]) || s[i] == sep
    {
      if i < |s| - 4 {
        assert s[i] == front[i];
      } else if i > |s| - 4 {
        assert s[i] == s[|s| - 3..][i - (|s| - 3)];
      }
    }
  }

  lemma {:induction false} WithoutAbsent(s: string, drop: set<char>, more: set<char>)
    requires drop <= more && forall i :: 0 <= i < |s| ==> s[i] in more ==> s[i] in drop
    ensures Without(s, drop) == Without(s, more)
  {
    if s != [] {
      WithoutAbsent(s[1..], drop, more);
    }
  }

  /** The heuristic decides nothing: its three branches all drop every dot and comma. */
  lemma BranchesAgree(s: string)
    ensures Normalize(s) == Without(s, {'.', ','})
  {
    if IsGrouped(s, '.') {
      GroupedHasOneSeparator(s, '.');
      WithoutAbsent(s, {'.'}, {'.', ','});
    } else if IsGrouped(s, ',') {
      GroupedHasOneSeparator(s, ',');
      WithoutAbsent(s, {','}, {'.', ','});
    }
  }

  lemma {:induction false} WithoutLeavesDigits(s: string)
    requires forall i :: 0 <= i < |s| ==> IsNumeral(s[i])
    ensures IsDigits(Without(s, {'.', ','}))
  {
    if s != [] {
      WithoutLeavesDigits(s[1..]);
    }
  }

  // ------------------------------------------------------- finding the unit tail

  lemma TrimOfNumeralStart(s: string)
    requires s != [] && IsNumeral(s[0])
    ensures TrimLeft(s) == s && Trim(s) == TrimRight(s)
    ensures Trim(s) != [] && Trim(s)[0] == s[0]
  {
  }

  lemma {:induction false} TrimRightKeepsFirst(s: string)
    requires s != [] && !IsSpace(s[0])
    ensures TrimRight(s) != [] && TrimRight(s)[0] == s[0]
  {
    if IsSpace(s[|s| - 1]) {
      TrimRightKeepsFirst(s[..|s| - 1]);
    }
  }

  /** A text that starts with a digit or separator is not a unit. */
  lemma NumeralIsNoUnit(s: string)
    requires s != [] && IsNumeral(s[0])
    ensures !IsUnitTail(s)
  {
    TrimOfNumeralStart(s);
    var core := Trim(s);
    var word := if core[|core| - 1] == '.' then core[..|core| - 1] else core;
    if word != [] {
      assert word[0] == s[0];
      assert Lower(word)[0] == LowerChar(s[0]) == s[0];
      assert forall u :: u in UNITS ==> u[0] == 'h';
    }
  }

  lemma {:induction false} StripFindsTail(d: string, t: string, from: nat)
    requires IsNumeralText(d) && from <= |d| && (t == [] || IsUnitTail(t))
    ensures StripUnitFrom(d + t, from) == d
    decreases |d| - from
  {
    var s := d + t;
    if from < |d| {
      assert s[from..][0] == d[from];
      NumeralIsNoUnit(s[from..]);
      StripFindsTail(d, t, from + 1);
    } else {
      assert s[from..] == t;
      assert s[..from] == d;
      if t == [] {
        assert Trim([]) == [] && Lower([]) == [];
      }
    }
  }

  lemma {:induction false} TrimRightOfTail(d: string, t: string)
    requires IsNumeralText(d)
    ensures TrimRight(d + t) == d + TrimRight(t)
  {
    if t == [] {
      assert d + t == d;
    } else if IsSpace(t[|t| - 1]) {
      assert (d + t)[..|d + t| - 1] == d + t[..|t| - 1];
      TrimRightOfTail(d, t[..|t| - 1]);
    }
  }

  lemma {:induction false} TrimRightStable(t: string)
    ensures TrimRight(TrimRight(t)) == TrimRight(t)
  {
    if t != [] && IsSpace(t[|t| - 1]) {
      TrimRightStable(t[..|t| - 1]);
    }
  }

  lemma {:induction false} TrimCommutes(t: string)
    ensures TrimLeft(TrimRight(t)) == TrimRight(TrimLeft(t))
  {
    if t != [] {
      if IsSpace(t[0]) {
        TrimCommutes(t[1..]);
        TrimRightCons(t);
      } else {
        TrimRightKeepsFirst(t);
      }
    }
  }

  lemma {:induction false} TrimRightCons(t: string)
    requires t != [] && IsSpace(t[0])
    ensures TrimRight(t) == if TrimRight(t[1..]) == [] then [] else [t[0]] + TrimRight(t[1..])
  {
    if |t| == 1 {
      assert t[1..] == [] && t[..0] == [];
    } else if IsSpace(t[|t| - 1]) {
      assert t[..|t| - 1][1..] == t[1..][..|t| - 2];
      TrimRightCons(t[..|t| - 1]);
    } else {
      assert t == [t[0]] + t[1..];
    }
  }

  /** The outer trim shortens a unit tail without making it something else. */
  lemma UnitTailSurvivesTrim(t: string)
    requires IsUnitTail(t)
    ensures IsUnitTail(TrimRight(t))
  {
    TrimCommutes(t);
    TrimRightStable(t);
    TrimCommutes(TrimRight(t));
    assert Trim(TrimRight(t)) == Trim(t);
  }

  lemma RoundOfWhole(n: nat)
    ensures Round(n as real) == n
  {
  }

  /** What is left of a numeral text before a unit once trims, unit and separators are gone. */
  lemma NormalizedNumeral(d: string, t: string)
    requires IsNumeralText(d) && (t == [] || IsUnitTail(t))
    ensures Trim(d + t) != []
    ensures Normalize(Trim(StripUnitFrom(Trim(d + t), 0))) == Without(d, {'.', ','})
  {
    assert (d + t)[0] == d[0];
    TrimOfNumeralStart(d + t);
    TrimRightOfTail(d, t);
    if t != [] {
      UnitTailSurvivesTrim(t);
    }
    StripFindsTail(d, TrimRight(t), 0);
    TrimOfNumeralStart(d);
    TrimRightOfTail(d, []);
    assert d + [] == d;
    BranchesAgree(d);
  }

  /**
   * Every text of digits and separators, alone or before an accepted unit, reads as the
   * number its digits form, wherever the separators stand.
   */
  lemma SeparatorsAreIgnored(d: string, t: string, other: OtherNumber)
    requires IsNumeralText(d) && (t == [] || IsUnitTail(t))
    ensures IsDigits(Without(d, {'.', ','}))
    ensures var n := ValueOf(Without(d, {'.', ','}));
            ParseMeter(Text(d + t), other) == if n > 0 then Some(n) else None
  {
    WithoutLeavesDigits(d);
    NormalizedNumeral(d, t);
    RoundOfWhole(ValueOf(Without(d, {'.', ','})));
  }

  // --------------------------------------------------------------- round trips

  lemma TrimOfWord(s: string)
    requires s != [] && !IsSpace(s[0]) && !IsSpace(s[|s| - 1])
    ensures Trim(s) == s && Trim(" " + s) == s
  {
    assert (" " + s)[1..] == s;
  }

  /** A word that lowers to a unit is a unit tail, alone, after a space, or before a dot. */
  lemma UnitWord(word: string)
    requires word != [] && Lower(word) in UNITS
    requires forall i :: 0 <= i < |word| ==> !IsSpace(word[i]) && word[i] != '.'
    ensures IsUnitTail(word) && IsUnitTail(" " + word) && IsUnitTail(word + ".") && IsUnitTail(" " + word + ".")
  {
    TrimOfWord(word);
    TrimOfWord(word + ".");
    assert (word + ".")[..|word|] == word;
    assert " " + word + "." == " " + (word + ".");
  }

  /** The four accepted units, with or without space and dot. */
  lemma AcceptedUnits(unit: string)
    requires unit in {"h", "hr", "hrs", "horas"}
    ensures IsUnitTail(unit) && IsUnitTail(" " + unit) && IsUnitTail(unit + ".") && IsUnitTail(" " + unit + ".")
  {
    assert Lower(unit) == unit;
    UnitWord(unit);
  }

  /** The number written with `sep` before every group of three digits. */
  function Grouped(n: nat, sep: char): string {
    if n < 1000 then Decimal(n) else Grouped(n / 1000, sep) + [sep] + PadStart(Decimal(n % 1000), 3)
  }

  lemma ThreeDigits(n: nat)
    requires n < 1000
    ensures |PadStart(Decimal(n), 3)| == 3 && 1 <= |Decimal(n)| <= 3
    ensures IsDigits(PadStart(Decimal(n), 3)) && ValueOf(PadStart(Decimal(n), 3)) == n
  {
    PaddedReadsBack(n, 3);
    if n >= 10 {
      assert |Decimal(n)| == |Decimal(n / 10)| + 1;
    }
  }

  lemma ValueOfOneMore(a: string, c: char)
    requires IsDigits(a) && IsDigit(c)
    ensures IsDigits(a + [c]) && ValueOf(a + [c]) == 10 * ValueOf(a) + (c as int - '0' as int)
  {
  }

  lemma ValueOfThreeMore(a: string, b: string)
    requires IsDigits(a) && IsDigits(b) && |b| == 3
    ensures IsDigits(a + b) && ValueOf(a + b) == 1000 * ValueOf(a) + ValueOf(b)
  {
    assert b == [] + [b[0]] + [b[1]] + [b[2]];
    ValueOfOneMore([], b[0]);
    ValueOfOneMore([] + [b[0]], b[1]);
    ValueOfOneMore([] + [b[0]] + [b[1]], b[2]);
    assert a + b == a + [b[0]] + [b[1]] + [b[2]];
    ValueOfOneMore(a, b[0]);
    ValueOfOneMore(a + [b[0]], b[1]);
    ValueOfOneMore(a + [b[0]] + [b[1]], b[2]);
  }

  lemma {:induction false} WithoutConcat(a: string, b: string, drop: set<char>)
    ensures Without(a + b, drop) == Without(a, drop) + Without(b, drop)
  {
    if a == [] {
      assert a + b == b;
    } else {
      assert (a + b)[1..] == a[1..] + b;
      WithoutConcat(a[1..], b, drop);
    }
  }

  lemma {:induction false} WithoutNone(s: string)
    requires IsDigits(s)
    ensures Without(s, {'.', ','}) == s
  {
    if s != [] {
      WithoutNone(s[1..]);
    }
  }

  /** One more group of three digits: the separator disappears and the value shifts by a thousand. */
  lemma OneMoreGroup(high: string, low: string, sep: char)
    requires (sep == '.' || sep == ',') && IsDigits(low) && |low| == 3
    requires IsDigits(Without(high, {'.', ','}))
    ensures Without(high + [sep] + low, {'.', ','}) == Without(high, {'.', ','}) + low
    ensures IsDigits(Without(high, {'.', ','}) + low)
    ensures ValueOf(Without(high, {'.', ','}) + low) == 1000 * ValueOf(Without(high, {'.', ','})) + ValueOf(low)
  {
    SeparatorDisappears(high, low, sep);
    ValueOfThreeMore(Without(high, {'.', ','}), low);
  }

  lemma SeparatorDisappears(high: string, low: string, sep: char)
    requires (sep == '.' || sep == ',') && IsDigits(low)
    ensures Without(high + [sep] + low, {'.', ','}) == Without(high, {'.', ','}) + low
  {
    var drop := {'.', ','};
    WithoutConcat(high + [sep], low, drop);
    WithoutConcat(high, [sep], drop);
    WithoutNone(low);
    assert Without([sep], drop) == [];
    assert Without(high, drop) + [] == Without(high, drop);
  }

  lemma GroupsMatchPattern(high: string, low: string, sep: char)
    requires IsDigits(low) && |low| == 3
    requires (1 <= |high| <= 3 && IsDigits(high)) || IsGrouped(high, sep)
    ensures IsGrouped(high + [sep] + low, sep)
  {
    var s := high + [sep] + low;
    assert s[..|s| - 4] == high && s[|s| - 3..] == low;
  }

  lemma NumeralTextsJoin(high: string, low: string, sep: char)
    requires IsNumeralText(high) && IsDigits(low) && (sep == '.' || sep == ',')
    ensures IsNumeralText(high + [sep] + low)
  {
  }

  lemma {:induction false} GroupedReadsBack(n: nat, sep: char)
    requires sep == '.' || sep == ','
    ensures IsNumeralText(Grouped(n, sep))
    ensures IsDigits(Without(Grouped(n, sep), {'.', ','})) && ValueOf(Without(Grouped(n, sep), {'.', ','})) == n
    ensures if n < 1000 then 1 <= |Grouped(n, sep)| <= 3 && IsDigits(Grouped(n, sep)) else IsGrouped(Grouped(n, sep), sep)
  {
    if n < 1000 {
      ThreeDigits(n);
      WithoutNone(Decimal(n));
    } else {
      var low := PadStart(Decimal(n % 1000), 3);
      var high := Grouped(n / 1000, sep);
      GroupedReadsBack(n / 1000, sep);
      ThreeDigits(n % 1000);
      OneMoreGroup(high, low, sep);
      GroupsMatchPattern(high, low, sep);
      NumeralTextsJoin(high, low, sep);
      assert n == 1000 * (n / 1000) + n % 1000;
    }
  }

  /** Every positive number reads back from its plain, dotted and comma text, with or without a unit. */
  lemma MeterRoundTrip(n: nat, t: string, other: OtherNumber)
    requires n > 0 && (t == [] || IsUnitTail(t))
    ensures ParseMeter(Text(Decimal(n) + t), other) == Some(n)
    ensures ParseMeter(Text(Grouped(n, '.') + t), other) == Some(n)
    ensures ParseMeter(Text(Grouped(n, ',') + t), other) == Some(n)
  {
    WithoutNone(Decimal(n));
    SeparatorsAreIgnored(Decimal(n), t, other);
    GroupedReadsBack(n, '.');
    SeparatorsAreIgnored(Grouped(n, '.'), t, other);
    GroupedReadsBack(n, ',');
    SeparatorsAreIgnored(Grouped(n, ','), t, other);
  }

  /** A decimal point is dropped like any other separator: a.b reads as the digits of a and b together. */
  lemma DecimalPointIsDropped(a: string, b: string, t: string, other: OtherNumber)
    requires IsDigits(a) && IsDigits(b) && (t == [] || IsUnitTail(t))
    ensures ParseMeter(Text(a + "." + b + t), other) == if ValueOf(a + b) > 0 then Some(ValueOf(a + b)) else None
  {
    var d := a + "." + b;
    assert Without(d, {'.', ','}) == a + b by {
      WithoutConcat(a + ".", b, {'.', ','});
      WithoutConcat(a, ".", {'.', ','});
      WithoutNone(a);
      WithoutNone(b);
      assert Without(".", {'.', ','}) == [];
    }
    SeparatorsAreIgnored(d, t, other);
  }

  // ------------------------------------------------------------ the other cells

  /** A native number is read when positive, as the nearest whole number; a blank cell or blank text is not read. */
  lemma NumberCells(r: real, blank: string, other: OtherNumber)
    requires Trim(blank) == ""
    ensures ParseMeter(Blank, other) == None && ParseMeter(Text(blank), other) == None
    ensures r <= 0.0 ==> ParseMeter(Num(r), other) == None
    ensures r > 0.0 ==> ParseMeter(Num(r), other).Some?
                        && r - 0.5 < ParseMeter(Num(r), other).value as real <= r + 0.5
  {
  }
}
