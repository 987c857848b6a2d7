/** Calendar dates in UTC, as `Date` objects at midnight UTC give them: a day is an integer,
    the number of days since 1970-01-01 (the JavaScript epoch), and the proleptic Gregorian
    calendar names it. `IsoDate` is `toISOString().slice(0, 10)`. */
module Calendar {
  import opened Strings

  predicate IsLeap(y: int) {
    y % 4 == 0 && (y % 100 != 0 || y % 400 == 0)
  }

  function DaysInYear(y: int): int {
    if IsLeap(y) then 366 else 365
  }

  /** Days of year `y` before the first of month `m`; month 13 stands for the end of the year. */
  function DaysBeforeMonth(y: int, m: int): (r: int)
    requires 1 <= m <= 13
    ensures m == 1 ==> r == 0
    ensures m == 13 ==> r == DaysInYear(y)
  {
    var common :=
      if m == 1 then 0 else if m == 2 then 31 else if m == 3 then 59
      else if m == 4 then 90 else if m == 5 then 120 else if m == 6 then 151
      else if m == 7 then 181 else if m == 8 then 212 else if m == 9 then 243
      else if m == 10 then 273 else if m == 11 then 304 else if m == 12 then 334
      else 365;
    common + (if m > 2 && IsLeap(y) then 1 else 0)
  }

  function DaysInMonth(y: int, m: int): int
    requires 1 <= m <= 12
  {
    DaysBeforeMonth(y, m + 1) - DaysBeforeMonth(y, m)
  }

  lemma {:induction false} MonthsIncrease(y: int, m1: int, m2: int)
    requires 1 <= m1 < m2 <= 13
    ensures DaysBeforeMonth(y, m1) + 28 <= DaysBeforeMonth(y, m2)
    decreases m2 - m1
  {
    if m1 + 1 < m2 {
      MonthsIncrease(y, m1 + 1, m2);
    }
  }

  /** The day of January 1st of year `y`. */
  function YearStart(y: int): int
    decreases if y < 1970 then 1970 - y else y - 1970
  {
    if y == 1970 then 0
    else if y > 1970 then YearStart(y - 1) + DaysInYear(y - 1)
    else YearStart(y + 1) - DaysInYear(y)
  }

  lemma YearStartStep(y: int)
    ensures YearStart(y + 1) == YearStart(y) + DaysInYear(y)
  {
  }

  lemma {:induction false} YearsIncrease(a: int, b: int)
    requires a < b
    ensures YearStart(a + 1) <= YearStart(b)
    decreases b - a
  {
    YearStartStep(b - 1);
    if a + 1 < b {
      YearsIncrease(a, b - 1);
    }
  }

  /** Walks from year `y` to the year holding the day `off` days after January 1st of `y`. */
  function YearWalk(y: int, off: int): (r: int)
    ensures YearStart(r) <= YearStart(y) + off < YearStart(r + 1)
    decreases off < 0, if off < 0 then -off else off
  {
    if off < 0 then
      YearStartStep(y - 1);
      YearWalk(y - 1, off + DaysInYear(y - 1))
    else if off < DaysInYear(y) then
      YearStartStep(y);
      y
    else
      YearStartStep(y);
      YearWalk(y + 1, off - DaysInYear(y))
  }

  /** The year that holds day `z`. */
  function YearOf(z: int): (y: int)
    ensures YearStart(y) <= z < YearStart(y + 1)
  {
    YearWalk(1970, z)
  }

  datatype Date = Date(year: int, month: int, day: int)

  predicate ValidDate(d: Date) {
    1 <= d.month <= 12 && 1 <= d.day <= DaysInMonth(d.year, d.month)
  }

  /** The day a calendar date names. */
  function DayNumber(d: Date): int
    requires 1 <= d.month <= 12
  {
    YearStart(d.year) + DaysBeforeMonth(d.year, d.month) + d.day - 1
  }

  /** Walks from month `m` to the month holding day `doy` (counted from 0) of year `y`. */
  function MonthWalk(y: int, doy: int, m: int): (r: int)
    requires 1 <= m <= 12 && DaysBeforeMonth(y, m) <= doy < DaysInYear(y)
    ensures m <= r <= 12 && DaysBeforeMonth(y, r) <= doy < DaysBeforeMonth(y, r + 1)
    decreases 12 - m
  {
    if m == 12 || doy < DaysBeforeMonth(y, m + 1) then m else MonthWalk(y, doy, m + 1)
  }

  /** The date of day `z`, found by walking through the years and then the months. */
  function WalkedDate(z: int): (d: Date)
    ensures ValidDate(d) && DayNumber(d) == z
  {
    var y := YearOf(z);
    YearStartStep(y);
    var doy := z - YearStart(y);
    var m := MonthWalk(y, doy, 1);
    Date(y, m, doy - DaysBeforeMonth(y, m) + 1)
  }

  lemma DateExists(z: int)
    ensures exists d :: ValidDate(d) && DayNumber(d) == z
  {
    var d := WalkedDate(z);
    assert ValidDate(d) && DayNumber(d) == z;
  }

  /** The calendar date of day `z`: the one valid date that names `z`. */
  function CivilDate(z: int): (d: Date)
    ensures ValidDate(d) && DayNumber(d) == z
  {
    DateExists(z);
    DayNumberInjective();
    var d :| ValidDate(d) && DayNumber(d) == z;
    d
  }

  /** Only one year holds a given day. */
  lemma YearUnique(y1: int, y2: int, z: int)
    requires YearStart(y1) <= z < YearStart(y1 + 1)
    requires YearStart(y2) <= z < YearStart(y2 + 1)
    ensures y1 == y2
  {
    if y1 < y2 {
      YearsIncrease(y1, y2);
    } else if y2 < y1 {
      YearsIncrease(y2, y1);
    }
  }

  /** Only one month of a year holds a given day of that year. */
  lemma MonthUnique(y: int, m1: int, m2: int, doy: int)
    requires 1 <= m1 <= 12 && 1 <= m2 <= 12
    requires DaysBeforeMonth(y, m1) <= doy < DaysBeforeMonth(y, m1 + 1)
    requires DaysBeforeMonth(y, m2) <= doy < DaysBeforeMonth(y, m2 + 1)
    ensures m1 == m2
  {
    if m1 < m2 {
      MonthsIncrease(y, m1 + 1, m2 + 1);
    } else if m2 < m1 {
      MonthsIncrease(y, m2 + 1, m1 + 1);
    }
  }

  /** A valid date lies inside its year. */
  lemma DateInYear(d: Date)
    requires ValidDate(d)
    ensures YearStart(d.year) <= DayNumber(d) < YearStart(d.year + 1)
  {
    YearStartStep(d.year);
    if d.month < 12 {
      MonthsIncrease(d.year, d.month + 1, 13);
    }
  }

  /** Different valid dates name different days. */
  lemma DayNumberInjective()
    ensures forall a, b :: ValidDate(a) && ValidDate(b) && DayNumber(a) == DayNumber(b) ==> a == b
  {
    forall a, b | ValidDate(a) && ValidDate(b) && DayNumber(a) == DayNumber(b) ensures a == b {
      DateInYear(a);
      DateInYear(b);
      YearUnique(a.year, b.year, DayNumber(a));
      MonthUnique(a.year, a.month, b.month, DayNumber(a) - YearStart(a.year));
    }
  }

  /** Day numbers and valid dates are in one-to-one correspondence. */
  lemma CivilDateOfDayNumber(d: Date)
    requires ValidDate(d)
    ensures CivilDate(DayNumber(d)) == d
  {
    DayNumberInjective();
  }

  /** Date order: by year, then month, then day. */
  predicate Before(a: Date, b: Date) {
    a.year < b.year
    || (a.year == b.year && (a.month < b.month || (a.month == b.month && a.day < b.day)))
  }

  /** Later days have later dates. */
  lemma CivilDateOrder(z1: int, z2: int)
    requires z1 < z2
    ensures Before(CivilDate(z1), CivilDate(z2))
  {
    DayNumberOrder(CivilDate(z1), CivilDate(z2));
  }

  lemma DayNumberOrder(a: Date, b: Date)
    requires ValidDate(a) && ValidDate(b) && DayNumber(a) < DayNumber(b)
    ensures Before(a, b)
  {
    DateInYear(a);
    DateInYear(b);
    if b.year < a.year {
      YearsIncrease(b.year, a.year);
    } else if a.year == b.year && b.month < a.month {
      MonthsIncrease(a.year, b.month + 1, a.month + 1);
    }
  }

  /** The year as `toISOString` writes it: four digits, or a sign and six digits outside 0..9999. */
  function YearText(y: int): (s: string)
    ensures 0 <= y <= 9999 ==> |s| == 4 && s == Digits(y, 4)
    ensures !(0 <= y <= 9999) ==> |s| == 7
  {
    if 0 <= y <= 9999 then Digits(y, 4)
    else if y < 0 then "-" + Digits(-y, 6)
    else "+" + Digits(y, 6)
  }

  /** The year text reads back as the year: its four digits spell it in 0..9999, and outside
      that range (within six digits) a sign followed by digits that spell its magnitude. */
  lemma YearTextRoundTrip(y: int)
    ensures 0 <= y <= 9999 ==> AllDigits(YearText(y)) && DecimalValue(YearText(y)) == y
    ensures 9999 < y < 1000000 ==>
      YearText(y)[0] == '+' && AllDigits(YearText(y)[1..]) && DecimalValue(YearText(y)[1..]) == y
    ensures -1000000 < y < 0 ==>
      YearText(y)[0] == '-' && AllDigits(YearText(y)[1..]) && DecimalValue(YearText(y)[1..]) == -y
  {
    assert Pow10(4) == 10000 && Pow10(6) == 1000000;
    if 0 <= y <= 9999 {
      DigitsRoundTrip(y, 4);
    } else if 9999 < y < 1000000 {
      assert YearText(y)[1..] == Digits(y, 6);
      DigitsRoundTrip(y, 6);
    } else if -1000000 < y < 0 {
      assert YearText(y)[1..] == Digits(-y, 6);
      DigitsRoundTrip(-y, 6);
    }
  }

  /** `-MM-DD` */
  function MonthDayText(m: nat, d: nat): (s: string)
    ensures '_' !in s && |s| == 6
  {
    NoUnderscore(Digits(m, 2));
    NoUnderscore(Digits(d, 2));
    "-" + Digits(m, 2) + "-" + Digits(d, 2)
  }

  lemma NoUnderscore(s: string)
    requires AllDigits(s)
    ensures '_' !in s
  {
  }

  /** `YYYY-MM-DD` for a date, years outside 0..9999 written as `YearText` does. */
  function DateText(d: Date): (s: string)
    requires 0 <= d.month && 0 <= d.day
    ensures '_' !in s && |s| == |YearText(d.year)| + 6
  {
    var y := YearText(d.year);
    assert '_' !in y by {
      if 0 <= d.year <= 9999 { NoUnderscore(Digits(d.year, 4)); }
      else if d.year < 0 { NoUnderscore(Digits(-d.year, 6)); }
      else { NoUnderscore(Digits(d.year, 6)); }
    }
    y + MonthDayText(d.month, d.day)
  }

  /** `toISOString().slice(0, 10)` of midnight UTC of day `z`. */
  function IsoDate(z: int): (s: string)
    ensures '_' !in s && |s| == 10
  {
    var text := DateText(CivilDate(z));
    assert forall i :: 0 <= i < 10 ==> text[..10][i] == text[i];
    text[..10]
  }

  /** With a four-digit year the first ten characters are the whole `YYYY-MM-DD`. */
  lemma IsoDateFourDigit(z: int)
    requires FourDigitYear(z)
    ensures IsoDate(z) == DateText(CivilDate(z))
  {
  }

  /** Outside years 0000..9999 the year takes seven characters, so the first ten keep only the
      year and the month: all days of one month get the same text. */
  lemma IsoDateLongYears(z1: int, z2: int)
    requires !FourDigitYear(z1)
    requires CivilDate(z1).year == CivilDate(z2).year && CivilDate(z1).month == CivilDate(z2).month
    ensures IsoDate(z1) == IsoDate(z2)
  {
    var d1, d2 := CivilDate(z1), CivilDate(z2);
    var y := YearText(d1.year);
    var t1, t2 := MonthDayText(d1.month, d1.day), MonthDayText(d2.month, d2.day);
    assert t1[..3] == t2[..3] by {
      assert t1[..3] == "-" + Digits(d1.month, 2);
      assert t2[..3] == "-" + Digits(d2.month, 2);
    }
    PrefixOfConcat(y, t1, 10);
    PrefixOfConcat(y, t2, 10);
  }

  lemma PrefixOfConcat(a: string, b: string, n: nat)
    requires |a| <= n <= |a| + |b|
    ensures (a + b)[..n] == a + b[..n - |a|]
  {
  }

  predicate FourDigitYear(z: int) {
    0 <= CivilDate(z).year <= 9999
  }

  /** A day between two days of four-digit years has a four-digit year too. */
  lemma FourDigitBetween(s: int, e: int, z: int)
    requires FourDigitYear(s) && FourDigitYear(e) && s <= z <= e
    ensures FourDigitYear(z)
  {
    if s < z {
      CivilDateOrder(s, z);
    }
    if z < e {
      CivilDateOrder(z, e);
    }
  }

  /** Within years 0000..9999 the string order of ISO dates is the order of the days. */
  lemma IsoDateOrder(z1: int, z2: int)
    requires FourDigitYear(z1) && FourDigitYear(z2)
    ensures Less(IsoDate(z1), IsoDate(z2)) <==> z1 < z2
    ensures IsoDate(z1) == IsoDate(z2) <==> z1 == z2
    ensures |IsoDate(z1)| == 10
  {
    if z1 < z2 {
      IsoDateBefore(z1, z2);
      LessIrreflexive(IsoDate(z1));
    } else if z2 < z1 {
      IsoDateBefore(z2, z1);
      LessAsymmetric(IsoDate(z2), IsoDate(z1));
    } else {
      LessIrreflexive(IsoDate(z1));
    }
  }

  lemma IsoDateBefore(z1: int, z2: int)
    requires FourDigitYear(z1) && FourDigitYear(z2) && z1 < z2
    ensures Less(IsoDate(z1), IsoDate(z2))
  {
    CivilDateOrder(z1, z2);
    DaysInMonthBound(CivilDate(z1));
    DaysInMonthBound(CivilDate(z2));
    DateTextBefore(CivilDate(z1), CivilDate(z2));
    IsoDateFourDigit(z1);
    IsoDateFourDigit(z2);
  }

  lemma DaysInMonthBound(d: Date)
    requires ValidDate(d)
    ensures d.day <= 31
  {
  }

  /** For four-digit years, the text order of dates is the date order. */
  lemma DateTextBefore(d1: Date, d2: Date)
    requires 0 <= d1.year <= 9999 && 0 <= d2.year <= 9999
    requires 0 <= d1.month < 100 && 0 <= d2.month < 100 && 0 <= d1.day < 100 && 0 <= d2.day < 100
    requires Before(d1, d2)
    ensures Less(DateText(d1), DateText(d2))
  {
    var md1, md2 := MonthDayText(d1.month, d1.day), MonthDayText(d2.month, d2.day);
    if d1.year < d2.year {
      DigitsOrder(d1.year, d2.year, 4);
      LessAppend(Digits(d1.year, 4), Digits(d2.year, 4), md1, md2);
    } else {
      MonthDayOrder(d1.month, d1.day, d2.month, d2.day);
      LessCommonPrefix(Digits(d1.year, 4), md1, md2);
    }
  }

  lemma MonthDayOrder(m1: nat, e1: nat, m2: nat, e2: nat)
    requires m1 < 100 && m2 < 100 && e1 < 100 && e2 < 100
    requires m1 < m2 || (m1 == m2 && e1 < e2)
    ensures Less(MonthDayText(m1, e1), MonthDayText(m2, e2))
  {
    var a1, a2 := "-" + Digits(m1, 2), "-" + Digits(m2, 2);
    if m1 < m2 {
      DigitsOrder(m1, m2, 2);
      LessCommonPrefix("-", Digits(m1, 2), Digits(m2, 2));
      LessAppend(a1, a2, "-" + Digits(e1, 2), "-" + Digits(e2, 2));
      assert MonthDayText(m1, e1) == a1 + ("-" + Digits(e1, 2));
      assert MonthDayText(m2, e2) == a2 + ("-" + Digits(e2, 2));
    } else {
      DigitsOrder(e1, e2, 2);
      LessCommonPrefix(a1 + "-", Digits(e1, 2), Digits(e2, 2));
    }
  }
}
