/** Civil dates of the proleptic Gregorian calendar as day numbers, and the fraction of a
    second in nanoseconds. */
module CivilDate {
  import opened Basics

  // ----- the closed formula

  /** Division as the program's integers do it: toward zero. */
  function Div(a: int, b: int): int
    requires b > 0
  {
    if a >= 0 then a / b else -((-a) / b)
  }

  function Mod(a: int, b: int): int
    requires b > 0
  {
    a - Div(a, b) * b
  }

  function DaysFromCivil(year: int, m: int, d: int): int {
    var y := if m <= 2 then year - 1 else year;
    var era := Div(if y >= 0 then y else y - 399, 400);
    var yoe := y - era * 400;
    var mp := Mod(m + 9, 12);
    var doy := Div(153 * mp + 2, 5) + d - 1;
    var doe := yoe * 365 + Div(yoe, 4) - Div(yoe, 100) + doy;
    era * 146097 + doe - 719468
  }

  // ----- counting

  datatype Date = Date(y: int, m: int, d: int)

  predicate Leap(y: int) { y % 4 == 0 && (y % 100 != 0 || y % 400 == 0) }

  function DaysInYear(y: int): nat { if Leap(y) then 366 else 365 }

  function DaysInMonth(y: int, m: int): nat {
    if m == 2 then (if Leap(y) then 29 else 28)
    else if m == 4 || m == 6 || m == 9 || m == 11 then 30
    else 31
  }

  predicate Valid(t: Date) { 1 <= t.m <= 12 && 1 <= t.d <= DaysInMonth(t.y, t.m) }

  /** Days from the first day of 1970 to the first day of a year, counted year by year. */
  function YearStart(y: int): int
    decreases if y >= 1970 then y - 1970 else 1970 - y
  {
    if y == 1970 then 0
    else if y > 1970 then YearStart(y - 1) + DaysInYear(y - 1)
    else YearStart(y + 1) - DaysInYear(y)
  }

  /** Days from the first day of a year to the first day of a month, counted month by month. */
  function MonthStart(y: int, m: int): nat
    requires 1 <= m <= 13
  {
    if m == 1 then 0 else MonthStart(y, m - 1) + DaysInMonth(y, m - 1)
  }

  function CountDays(t: Date): int
    requires Valid(t)
  {
    YearStart(t.y) + MonthStart(t.y, t.m) + t.d - 1
  }

  function Next(t: Date): Date {
    if t.d < DaysInMonth(t.y, t.m) then t.(d := t.d + 1)
    else if t.m < 12 then Date(t.y, t.m + 1, 1)
    else Date(t.y + 1, 1, 1)
  }

  function Previous(t: Date): Date {
    if t.d > 1 then t.(d := t.d - 1)
    else if t.m > 1 then Date(t.y, t.m - 1, DaysInMonth(t.y, t.m - 1))
    else Date(t.y - 1, 12, 31)
  }

  // ----- the formula counts

  /** Days up to a year, with one leap day every fourth year but not every hundredth unless
      every four hundredth. */
  function Linear(y: int): int { 365 * y + y / 4 - y / 100 + y / 400 }

  lemma LinearStep(y: int)
    ensures Linear(y) == Linear(y - 1) + DaysInYear(y)
  {
    Quotients(y, 4);
    Quotients(y, 100);
    Quotients(y, 400);
    Divisibility(y);
  }

  lemma HundredsAreFours(q: int)
    ensures (100 * q) % 4 == 0
  {
    assert 100 * q == 4 * (25 * q);
  }

  lemma FourHundredsAreHundreds(q: int)
    ensures (400 * q) % 100 == 0
  {
    assert 400 * q == 100 * (4 * q);
  }

  lemma Divisibility(y: int)
    ensures y % 400 == 0 ==> y % 100 == 0
    ensures y % 100 == 0 ==> y % 4 == 0
  {
    FourHundredsAreHundreds(y / 400);
    HundredsAreFours(y / 100);
  }

  lemma Quotients(y: int, k: int)
    requires k == 4 || k == 100 || k == 400
    ensures y / k == (y - 1) / k + (if y % k == 0 then 1 else 0)
  {
  }

  lemma {:induction false} YearStartIsLinear(y: int)
    ensures YearStart(y) == Linear(y - 1) - Linear(1969)
    decreases if y >= 1970 then y - 1970 else 1970 - y
  {
    if y > 1970 {
      YearStartIsLinear(y - 1);
      LinearStep(y - 1);
    } else if y < 1970 {
      YearStartIsLinear(y + 1);
      LinearStep(y);
    }
  }

  /** The four-hundred-year split of the formula is the plain leap-day count. */
  lemma EraSplit(y: int)
    ensures var era := Div(if y >= 0 then y else y - 399, 400);
      var yoe := y - era * 400;
      && 0 <= yoe < 400 && era == y / 400
      && era * 146097 + yoe * 365 + Div(yoe, 4) - Div(yoe, 100) == Linear(y)
  {
    var era := Div(if y >= 0 then y else y - 399, 400);
    assert era == y / 400;
    var yoe := y - era * 400;
    assert y / 4 == 100 * era + yoe / 4;
    assert y / 100 == 4 * era + yoe / 100;
  }

  lemma MonthStarts(y: int)
    ensures MonthStart(y, 1) == 0 && MonthStart(y, 2) == 31
    ensures var leap := if Leap(y) then 1 else 0;
      && MonthStart(y, 3) == 59 + leap && MonthStart(y, 4) == 90 + leap && MonthStart(y, 5) == 120 + leap
      && MonthStart(y, 6) == 151 + leap && MonthStart(y, 7) == 181 + leap && MonthStart(y, 8) == 212 + leap
      && MonthStart(y, 9) == 243 + leap && MonthStart(y, 10) == 273 + leap && MonthStart(y, 11) == 304 + leap
      && MonthStart(y, 12) == 334 + leap && MonthStart(y, 13) == 365 + leap
  {
    assert MonthStart(y, 4) == MonthStart(y, 3) + 31;
    assert MonthStart(y, 6) == MonthStart(y, 5) + 31;
    assert MonthStart(y, 8) == MonthStart(y, 7) + 31;
    assert MonthStart(y, 10) == MonthStart(y, 9) + 30;
    assert MonthStart(y, 12) == MonthStart(y, 11) + 30;
  }

  /** The formula's day offsets of the months, March being the first. */
  function MarchOffset(m: int): int { Div(153 * Mod(m + 9, 12) + 2, 5) }

  lemma MarchOffsets()
    ensures MarchOffset(1) == 306 && MarchOffset(2) == 337
    ensures MarchOffset(3) == 0 && MarchOffset(4) == 31 && MarchOffset(5) == 61 && MarchOffset(6) == 92
    ensures MarchOffset(7) == 122 && MarchOffset(8) == 153 && MarchOffset(9) == 184 && MarchOffset(10) == 214
    ensures MarchOffset(11) == 245 && MarchOffset(12) == 275
  {
  }

  /** The day of the year that starts in March, against the calendar months. */
  lemma MarchYear(y: int, m: int)
    requires 1 <= m <= 12
    ensures MarchOffset(m) ==
      if m <= 2 then MonthStart(y, m) + 306 else MonthStart(y, m) - 59 - (if Leap(y) then 1 else 0)
  {
    MonthStarts(y);
    MarchOffsets();
  }

  lemma FormulaUnfolds(year: int, m: int, d: int)
    ensures DaysFromCivil(year, m, d) ==
      Linear(if m <= 2 then year - 1 else year) + MarchOffset(m) + d - 1 - 719468
  {
    EraSplit(if m <= 2 then year - 1 else year);
  }

  /** For every year, also before year one, and every valid month and day, the formula is the
      number of days counted from 1970-01-01. */
  lemma FormulaCountsDays(t: Date)
    requires Valid(t)
    ensures DaysFromCivil(t.y, t.m, t.d) == CountDays(t)
  {
    var here, offset := Linear(t.y - 1), MarchOffset(t.m);
    assert YearStart(t.y) == here - 719162 by {
      YearStartIsLinear(t.y);
      assert Linear(1969) == 719162;
    }
    assert Linear(t.y) == here + DaysInYear(t.y) by { LinearStep(t.y); }
    assert if t.m <= 2 then offset == MonthStart(t.y, t.m) + 306
           else offset == MonthStart(t.y, t.m) - 59 - (if Leap(t.y) then 1 else 0) by { MarchYear(t.y, t.m); }
    FormulaUnfolds(t.y, t.m, t.d);
  }

  lemma CountNext(t: Date)
    requires Valid(t)
    ensures Valid(Next(t)) && CountDays(Next(t)) == CountDays(t) + 1
  {
    YearStartStep(t.y);
    YearIsItsMonths(t.y);
  }

  lemma YearIsItsMonths(y: int)
    ensures MonthStart(y, 12) + DaysInMonth(y, 12) == DaysInYear(y)
  {
    MonthStarts(y);
  }

  /** The epoch is day zero and the next date is the next number. */
  lemma NextDayIsNextNumber(t: Date)
    requires Valid(t)
    ensures DaysFromCivil(1970, 1, 1) == 0
    ensures Valid(Next(t)) && DaysFromCivil(Next(t).y, Next(t).m, Next(t).d) == DaysFromCivil(t.y, t.m, t.d) + 1
  {
    FormulaCountsDays(Date(1970, 1, 1));
    FormulaCountsDays(t);
    CountNext(t);
    FormulaCountsDays(Next(t));
  }

  lemma YearStartStep(y: int)
    ensures YearStart(y + 1) == YearStart(y) + DaysInYear(y)
  {
  }

  lemma PreviousDay(t: Date)
    requires Valid(t)
    ensures Valid(Previous(t)) && Next(Previous(t)) == t
  {
  }

  /** Calendar order. */
  predicate Before(a: Date, b: Date) {
    a.y < b.y || (a.y == b.y && (a.m < b.m || (a.m == b.m && a.d < b.d)))
  }

  lemma {:induction false} YearsAdvance(a: int, b: int)
    requires a < b
    ensures YearStart(a) + DaysInYear(a) <= YearStart(b)
    decreases b - a
  {
    YearStartStep(b - 1);
    if a < b - 1 {
      YearsAdvance(a, b - 1);
    }
  }

  lemma {:induction false} MonthsAdvance(y: int, a: int, b: int)
    requires 1 <= a < b <= 13
    ensures MonthStart(y, a) + DaysInMonth(y, a) <= MonthStart(y, b)
    decreases b - a
  {
    if a < b - 1 {
      MonthsAdvance(y, a, b - 1);
    }
  }

  lemma DayWithinYear(t: Date)
    requires Valid(t)
    ensures YearStart(t.y) <= CountDays(t) < YearStart(t.y) + DaysInYear(t.y)
  {
    MonthStarts(t.y);
    if t.m < 12 {
      MonthsAdvance(t.y, t.m, 13);
    }
  }

  /** Day numbers grow with the calendar. */
  lemma LaterDateLargerNumber(a: Date, b: Date)
    requires Valid(a) && Valid(b) && Before(a, b)
    ensures DaysFromCivil(a.y, a.m, a.d) < DaysFromCivil(b.y, b.m, b.d)
  {
    FormulaCountsDays(a);
    FormulaCountsDays(b);
    DayWithinYear(a);
    DayWithinYear(b);
    if a.y < b.y {
      YearsAdvance(a.y, b.y);
    } else if a.m < b.m {
      MonthsAdvance(a.y, a.m, b.m);
    }
  }

  /** Every integer is the number of exactly one date. */
  lemma {:induction false} EveryNumberHasItsDate(n: int) returns (t: Date)
    ensures Valid(t) && DaysFromCivil(t.y, t.m, t.d) == n
    ensures forall u :: Valid(u) && DaysFromCivil(u.y, u.m, u.d) == n ==> u == t
    decreases if n >= 0 then n else -n
  {
    if n == 0 {
      t := Date(1970, 1, 1);
      NextDayIsNextNumber(t);
    } else if n > 0 {
      var before := EveryNumberHasItsDate(n - 1);
      NextDayIsNextNumber(before);
      t := Next(before);
    } else {
      var after := EveryNumberHasItsDate(n + 1);
      PreviousDay(after);
      t := Previous(after);
      NextDayIsNextNumber(t);
    }
    forall u | Valid(u) && DaysFromCivil(u.y, u.m, u.d) == n ensures u == t {
      if Before(u, t) {
        LaterDateLargerNumber(u, t);
      } else if Before(t, u) {
        LaterDateLargerNumber(t, u);
      }
    }
  }

  predicate FitsI64(x: int) { -0x8000_0000_0000_0000 <= x < 0x8000_0000_0000_0000 }

  /** For years within twenty quadrillion of zero no intermediate value leaves 64 signed bits. */
  lemma IntermediatesFit(t: Date)
    requires Valid(t) && -20_000_000_000_000_000 <= t.y <= 20_000_000_000_000_000
    ensures var y := if t.m <= 2 then t.y - 1 else t.y;
      var era := Div(if y >= 0 then y else y - 399, 400);
      FitsI64(y - 399) && FitsI64(era * 146097) && FitsI64(DaysFromCivil(t.y, t.m, t.d))
  {
    var y := if t.m <= 2 then t.y - 1 else t.y;
    EraSplit(y);
    MarchYear(t.y, t.m);
    MonthStarts(t.y);
  }

  // ----- the fraction of a second

  function Power10(k: nat): nat { if k == 0 then 1 else 10 * Power10(k - 1) }

  function Digit(c: char): Option<nat> { if '0' <= c <= '9' then Some((c - '0') as nat) else None }

  predicate AllDigits(s: string) { forall i :: 0 <= i < |s| ==> Digit(s[i]).Some? }

  /** A string of digits read as a decimal number. */
  function Decimal(s: string): nat
    requires AllDigits(s)
  {
    if s == [] then 0 else Decimal(s[..|s| - 1]) * 10 + Digit(s[|s| - 1]).value
  }

  function Zeros(k: nat): (s: string)
    ensures |s| == k && AllDigits(s)
  {
    seq(k, _ => '0')
  }

  function First9(s: string): string { if |s| <= 9 then s else s[..9] }

  lemma {:induction false} DecimalPadded(s: string, k: nat)
    requires AllDigits(s)
    ensures AllDigits(s + Zeros(k)) && Decimal(s + Zeros(k)) == Decimal(s) * Power10(k)
  {
    if k == 0 {
      assert s + Zeros(0) == s;
    } else {
      DecimalPadded(s, k - 1);
      var padded := s + Zeros(k);
      assert padded[..|padded| - 1] == s + Zeros(k - 1) && padded[|padded| - 1] == '0';
      assert Decimal(padded) == Decimal(s + Zeros(k - 1)) * 10;
      TimesTen(Decimal(s), Power10(k - 1));
    }
  }

  lemma TimesTen(a: nat, b: nat)
    ensures (a * b) * 10 == a * (10 * b)
  {
  }

  lemma {:induction false} DecimalBound(s: string)
    requires AllDigits(s)
    ensures Decimal(s) < Power10(|s|)
  {
    if s != [] {
      DecimalBound(s[..|s| - 1]);
    }
  }

  /** The nanoseconds of a fraction: its first nine characters, padded with zeros, as a number;
      nothing if one of them is not a digit. */
  method FractionNanos(frac: string) returns (r: Option<nat>)
    ensures r.Some? <==> AllDigits(First9(frac))
    ensures r.Some? ==>
      var padded := First9(frac) + Zeros(9 - |First9(frac)|);
      AllDigits(padded) && r.value == Decimal(padded) < 1_000_000_000
  {
    var s := First9(frac);
    var nanos := 0;
    for i := 0 to |s|
      invariant AllDigits(s[..i])
      invariant nanos == Decimal(s[..i]) * Power10(9 - i)
    {
      var digit := Digit(s[i]);
      if digit.None? {
        return None;
      }
      assert s[..i + 1][..i] == s[..i];
      assert Power10(9 - i) == 10 * Power10(8 - i);
      Regroup(Decimal(s[..i]), digit.value, Power10(8 - i));
      nanos := nanos + digit.value * Power10(8 - i);
    }
    assert s[..|s|] == s;
    DecimalPadded(s, 9 - |s|);
    DecimalBound(s + Zeros(9 - |s|));
    assert Power10(9) == 1_000_000_000;
    return Some(nanos);
  }

  lemma Regroup(high: nat, digit: nat, unit: nat)
    ensures high * (10 * unit) + digit * unit == (high * 10 + digit) * unit
  {
  }

  /** Ten digits and no other characters, and each further digit counts the number before it tenfold. */
  lemma DecimalExact(s: string, c: char)
    ensures Digit(c).Some? <==> c in "0123456789"
    ensures Digit(c).Some? ==> "0123456789"[Digit(c).value..] != [] && "0123456789"[Digit(c).value] == c
    ensures AllDigits(s) && Digit(c).Some? ==> AllDigits(s + [c]) && Decimal(s + [c]) == 10 * Decimal(s) + Digit(c).value
    ensures Decimal("") == 0 && (forall k: nat :: forall i :: 0 <= i < k ==> Zeros(k)[i] == '0')
  {
    var digits := "0123456789";
    assert forall i :: 0 <= i < 10 ==> digits[i] == '0' + i as char;
    if Digit(c).Some? {
      assert digits[Digit(c).value] == c;
    }
    assert (s + [c])[..|s|] == s;
  }
}
