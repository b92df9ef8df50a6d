/**
 Julian day numbers (IMServer/base/Date.cc) against the Gregorian calendar.

 The conversions are straight-line integer arithmetic. The calendar they are compared with is
 defined on its own here: the 4/100/400 leap rule, the month lengths and the successor of a date.
 */
module Calendar {
  import opened CInt

  datatype Date = Date(year: int, month: int, day: int)

  // ---- the two conversions -------------------------------------------------------------------

  function JulianDayNumber(year: int, month: int, day: int): int {
    var a := Quot(14 - month, 12);
    var y := year + 4800 - a;
    var m := month + 12 * a - 3;
    day + Quot(153 * m + 2, 5) + y * 365 + Quot(y, 4) - Quot(y, 100) + Quot(y, 400) - 32045
  }

  function YearMonthDay(julianDayNumber: int): Date {
    var a := julianDayNumber + 32044;
    var b := Quot(4 * a + 3, 146097);
    var c := a - Quot(b * 146097, 4);
    var d := Quot(4 * c + 3, 1461);
    var e := c - Quot(1461 * d, 4);
    var m := Quot(5 * e + 2, 153);
    Date(b * 100 + d - 4800 + Quot(m, 10), m + 3 - 12 * Quot(m, 10), e - Quot(153 * m + 2, 5) + 1)
  }

  /** Sunday is 0. */
  function WeekDay(julianDayNumber: int): int {
    Rem(julianDayNumber + 1, 7)
  }

  function Number(d: Date): int {
    JulianDayNumber(d.year, d.month, d.day)
  }

  // ---- the calendar --------------------------------------------------------------------------

  predicate Leap(year: int) {
    year % 400 == 0 || (year % 4 == 0 && year % 100 != 0)
  }

  function DaysInMonth(year: int, month: int): int {
    if month == 2 then (if Leap(year) then 29 else 28)
    else if month in {4, 6, 9, 11} then 30
    else 31
  }

  predicate Valid(d: Date) {
    1 <= d.month <= 12 && 1 <= d.day <= DaysInMonth(d.year, d.month)
  }

  /** Where the conversions are exact: dates from 1 March -4800 on, day numbers from -32044 on. */
  predicate InDomain(d: Date) {
    Valid(d) && (d.year > -4800 || (d.year == -4800 && d.month >= 3))
  }

  const FIRST_DAY := -32044

  function Successor(d: Date): Date {
    if d.day < DaysInMonth(d.year, d.month) then Date(d.year, d.month, d.day + 1)
    else if d.month < 12 then Date(d.year, d.month + 1, 1)
    else Date(d.year + 1, 1, 1)
  }

  /** The date n days after 1 March -4800, found by counting. */
  ghost function CountedFrom1March(n: nat): Date {
    if n == 0 then Date(-4800, 3, 1) else Successor(CountedFrom1March(n - 1))
  }

  predicate Before(x: Date, y: Date) {
    x.year < y.year || (x.year == y.year && (x.month < y.month || (x.month == y.month && x.day < y.day)))
  }

  // ---- March-based years ---------------------------------------------------------------------

  // A date in the domain is a March-based year y >= 0, a month m counted from March, and a day e
  // counted from 1 March. February is last, so the leap day is the last day of its year.

  function MarchYear(d: Date): int {
    d.year + 4800 - (if d.month <= 2 then 1 else 0)
  }

  function MarchMonth(d: Date): int {
    if d.month <= 2 then d.month + 9 else d.month - 3
  }

  function DayOfMarchYear(d: Date): int
    requires Valid(d)
  {
    (153 * MarchMonth(d) + 2) / 5 + d.day - 1
  }

  /** Days in the March-based years before y. */
  function DaysBefore(y: nat): nat {
    365 * y + y / 4 - y / 100 + y / 400
  }

  predicate LongYear(y: nat) {
    Leap(y + 1)
  }

  lemma NumberByMarchYear(d: Date)
    requires InDomain(d)
    ensures MarchYear(d) >= 0
    ensures Number(d) == DaysBefore(MarchYear(d)) + DayOfMarchYear(d) + FIRST_DAY
  {
    assert Quot(14 - d.month, 12) == if d.month <= 2 then 1 else 0;
    hide Quot, DaysInMonth;
  }

  lemma DayOfMarchYearBound(d: Date)
    requires InDomain(d)
    ensures 0 <= DayOfMarchYear(d) <= 364 + (if LongYear(MarchYear(d)) then 1 else 0)
  {
    assert d.month <= 2 ==> Leap(d.year) == Leap(MarchYear(d) + 1) by {
      LeapShift(d.year);
    }
  }

  lemma LeapShift(year: int)
    ensures Leap(year) == Leap(year + 4800)
  {
    Mod400(12, year);
    Mod100(48, year);
    Mod4(1200, year);
  }

  /** Splits the years before y by the century it falls in. */
  lemma DaysBeforeByCentury(b: nat, d: nat)
    requires d < 100
    ensures DaysBefore(100 * b + d) == (146097 * b) / 4 + 365 * d + d / 4
  {
    assert (100 * b + d) / 4 == 25 * b + d / 4;
    assert (100 * b + d) / 100 == b;
    assert (100 * b + d) / 400 == b / 4;
  }

  lemma LongYearByCentury(b: nat, d: nat)
    requires d < 100
    ensures LongYear(100 * b + d) <==> d % 4 == 3 && (d == 99 ==> b % 4 == 3)
  {
    if d == 99 {
      assert 100 * b + d + 1 == 100 * (b + 1) + 0;
      LeapByCentury(b + 1, 0);
    } else {
      LeapByCentury(b, d + 1);
    }
    hide Leap;
  }

  lemma LeapByCentury(b: nat, d: nat)
    requires d < 100
    ensures Leap(100 * b + d) <==> if d == 0 then b % 4 == 0 else d % 4 == 0
  {
    var q, r := b / 4, b % 4;
    Mod400(q, 100 * r + d);
    Mod100(b, d);
    Mod4(25 * b, d);
    assert 100 * b + d == 400 * q + (100 * r + d) == 4 * (25 * b) + d;
  }

  lemma Mod400(q: int, x: int)
    ensures (400 * q + x) % 400 == x % 400
  {
  }

  lemma Mod100(q: int, x: int)
    ensures (100 * q + x) % 100 == x % 100
  {
  }

  lemma Mod4(q: int, x: int)
    ensures (4 * q + x) % 4 == x % 4
  {
  }

  /** The last three lines of getYearMonthDay, as a function of the March-based year and day. */
  function FromMarchYear(y: nat, e: nat): Date {
    var m := (5 * e + 2) / 153;
    Date(y - 4800 + m / 10, m + 3 - 12 * (m / 10), e - (153 * m + 2) / 5 + 1)
  }

  /** The search for century and year finds exactly the year that the day number was built from. */
  lemma FindsYear(y: nat, e: nat)
    requires e <= 364 + (if LongYear(y) then 1 else 0)
    ensures YearMonthDay(DaysBefore(y) + e + FIRST_DAY) == FromMarchYear(y, e)
  {
    hide LongYear, DaysBefore, YearMonthDay, FromMarchYear;
    FindsYearIn(y / 100, y % 100, e);
  }

  lemma FindsYearIn(b: nat, d: nat, e: nat)
    requires d < 100 && e <= 364 + (if LongYear(100 * b + d) then 1 else 0)
    ensures YearMonthDay(DaysBefore(100 * b + d) + e + FIRST_DAY) == FromMarchYear(100 * b + d, e)
  {
    hide LongYear, DaysBefore, YearMonthDay, FromMarchYear;
    LongYearByCentury(b, d);
    DaysBeforeByCentury(b, d);
    DecodesCentury(b, d, e);
  }

  lemma DecodesCentury(b: nat, d: nat, e: nat)
    requires d < 100 && e <= 365 && (e == 365 ==> d % 4 == 3 && (d == 99 ==> b % 4 == 3))
    ensures YearMonthDay((146097 * b) / 4 + 365 * d + d / 4 + e + FIRST_DAY) == FromMarchYear(100 * b + d, e)
  {
    hide YearMonthDay, FromMarchYear;
    var c := 365 * d + d / 4 + e;
    var a := (146097 * b) / 4 + c;
    FindsCentury(b, c);
    FindsYearOfCentury(d, e);
    Steps(a, b, c, d, e);
  }

  lemma Steps(a: nat, b: nat, c: nat, d: nat, e: nat)
    requires (4 * a + 3) / 146097 == b && c == a - (146097 * b) / 4
    requires (4 * c + 3) / 1461 == d && e == c - (1461 * d) / 4
    ensures YearMonthDay(a - 32044) == FromMarchYear(100 * b + d, e)
  {
    hide Quot;
  }

  lemma FindsCentury(b: nat, c: nat)
    requires c <= 36524 && (c == 36524 ==> b % 4 == 3)
    ensures (4 * ((146097 * b) / 4 + c) + 3) / 146097 == b
  {
    assert 4 * ((146097 * b) / 4) == 146097 * b - b % 4 by {
      assert (146097 * b) % 4 == b % 4;
    }
  }

  lemma FindsYearOfCentury(d: nat, e: nat)
    requires e <= 365 && (e == 365 ==> d % 4 == 3)
    ensures (4 * (365 * d + d / 4 + e) + 3) / 1461 == d
    ensures (1461 * d) / 4 == 365 * d + d / 4
  {
  }

  lemma MarchYearRoundTrip(d: Date)
    requires InDomain(d)
    ensures MarchYear(d) >= 0 && DayOfMarchYear(d) >= 0
    ensures FromMarchYear(MarchYear(d), DayOfMarchYear(d)) == d
  {
    assert (5 * DayOfMarchYear(d) + 2) / 153 == MarchMonth(d);
  }

  lemma FromMarchYearIsValid(y: nat, e: nat)
    requires e <= 364 + (if LongYear(y) then 1 else 0)
    ensures var d := FromMarchYear(y, e);
            InDomain(d) && MarchYear(d) == y && DayOfMarchYear(d) == e
  {
    var m := (5 * e + 2) / 153;
    assert 0 <= m <= 11;
    LeapShift(y + 1 - 4800);
  }

  /** Every day number lies in some March-based year. */
  lemma YearOf(n: nat) returns (y: nat, e: nat)
    ensures e <= 364 + (if LongYear(y) then 1 else 0)
    ensures n == DaysBefore(y) + e
  {
    if n == 0 {
      y, e := 0, 0;
    } else {
      y, e := YearOf(n - 1);
      if e < 364 + (if LongYear(y) then 1 else 0) {
        e := e + 1;
      } else {
        YearLength(y);
        y, e := y + 1, 0;
      }
    }
  }

  lemma YearLength(y: nat)
    ensures DaysBefore(y + 1) == DaysBefore(y) + 365 + (if LongYear(y) then 1 else 0)
  {
    NextQuotient4(y);
    NextQuotient100(y);
    NextQuotient400(y);
    CenturyYears(y + 1);
  }

  lemma NextQuotient4(y: nat)
    ensures (y + 1) / 4 == y / 4 + (if (y + 1) % 4 == 0 then 1 else 0)
  {
  }

  lemma NextQuotient100(y: nat)
    ensures (y + 1) / 100 == y / 100 + (if (y + 1) % 100 == 0 then 1 else 0)
  {
  }

  lemma NextQuotient400(y: nat)
    ensures (y + 1) / 400 == y / 400 + (if (y + 1) % 400 == 0 then 1 else 0)
  {
  }

  lemma CenturyYears(y: nat)
    ensures y % 400 == 0 ==> y % 100 == 0
    ensures y % 100 == 0 ==> y % 4 == 0
  {
    Mod100(4 * (y / 400), y % 400);
    Mod4(25 * (y / 100), y % 100);
  }

  // ---- the results ---------------------------------------------------------------------------

  /** Date to day number and back. */
  lemma DateRoundTrip(d: Date)
    requires InDomain(d)
    ensures YearMonthDay(Number(d)) == d
    ensures Number(d) >= FIRST_DAY
  {
    hide YearMonthDay, Number, DaysBefore, FromMarchYear, DayOfMarchYear, MarchYear, LongYear;
    NumberByMarchYear(d);
    DayOfMarchYearBound(d);
    FindsYear(MarchYear(d), DayOfMarchYear(d));
    MarchYearRoundTrip(d);
  }

  /** Day number to date and back: every day number names a real date. */
  lemma NumberRoundTrip(j: int)
    requires j >= FIRST_DAY
    ensures InDomain(YearMonthDay(j))
    ensures Number(YearMonthDay(j)) == j
  {
    hide YearMonthDay, Number, DaysBefore, FromMarchYear, DayOfMarchYear, MarchYear, LongYear;
    var y, e := YearOf(j - FIRST_DAY);
    FindsYear(y, e);
    FromMarchYearIsValid(y, e);
    NumberByMarchYear(YearMonthDay(j));
  }

  lemma SuccessorInMarchYear(d: Date)
    requires InDomain(d)
    ensures InDomain(Successor(d)) && MarchYear(Successor(d)) >= 0 && MarchYear(d) >= 0
    ensures DaysBefore(MarchYear(Successor(d))) + DayOfMarchYear(Successor(d))
            == DaysBefore(MarchYear(d)) + DayOfMarchYear(d) + 1
  {
    hide DaysBefore;
    if d.month == 2 && Successor(d).month == 3 {
      YearLength(MarchYear(d));
      LeapShift(d.year);
    }
  }

  /** The calendar's next day has the next number. */
  lemma SuccessorAddsOne(d: Date)
    requires InDomain(d)
    ensures InDomain(Successor(d))
    ensures Number(Successor(d)) == Number(d) + 1
  {
    var s := Successor(d);
    NumberByMarchYear(d);
    NumberByMarchYear(s);
    hide Number, DaysBefore, LongYear;
    SuccessorInMarchYear(d);
  }

  lemma FirstDay()
    ensures YearMonthDay(FIRST_DAY) == Date(-4800, 3, 1)
  {
    hide YearMonthDay, LongYear;
    FindsYear(0, 0);
  }

  // Below the domain truncation keeps each remainder negative, down to the day of the month.

  lemma NegativeRemainder(a: int, k: int)
    requires a < 0 && k > 0
    ensures a - Quot(Quot(4 * a + 3, k) * k, 4) < 0
  {
    var n := -a;
    var u := (4 * n - 3) / k;
    assert Quot(4 * a + 3, k) == -u;
    assert u * k <= 4 * n - 3;
    assert -u * k == -(u * k);
    QuarterOfNegative(u * k);
  }

  lemma QuarterOfNegative(p: int)
    requires p >= 0
    ensures Quot(-p, 4) == -(p / 4)
  {
  }

  lemma DayOfNegative(e: int)
    requires e < 0
    ensures e - Quot(153 * Quot(5 * e + 2, 153) + 2, 5) + 1 <= 0
  {
    var n := -e;
    var w := (5 * n - 2) / 153;
    assert Quot(5 * e + 2, 153) == -w;
    if w > 0 {
      assert Quot(2 - 153 * w, 5) == -((153 * w - 2) / 5);
    }
  }

  lemma BelowDomain(j: int)
    requires j < FIRST_DAY
    ensures YearMonthDay(j).day <= 0
  {
    var a := j + 32044;
    NegativeRemainder(a, 146097);
    var c := a - Quot(Quot(4 * a + 3, 146097) * 146097, 4);
    NegativeRemainder(c, 1461);
    var e := c - Quot(1461 * Quot(4 * c + 3, 1461), 4);
    DayOfNegative(e);
    DayOf(j, a, c, e);
  }

  lemma DayOf(j: int, a: int, c: int, e: int)
    requires a == j + 32044 && c == a - Quot(Quot(4 * a + 3, 146097) * 146097, 4)
    requires e == c - Quot(1461 * Quot(4 * c + 3, 1461), 4)
    ensures YearMonthDay(j).day == e - Quot(153 * Quot(5 * e + 2, 153) + 2, 5) + 1
  {
    hide Quot;
  }

  /** getYearMonthDay yields a real date exactly on the domain. */
  lemma DomainIsTight(j: int)
    ensures Valid(YearMonthDay(j)) <==> j >= FIRST_DAY
  {
    hide YearMonthDay;
    if j >= FIRST_DAY {
      NumberRoundTrip(j);
    } else {
      BelowDomain(j);
    }
  }

  /** For instance, one day before the domain comes out as a day zero. */
  lemma DayBeforeDomain()
    ensures YearMonthDay(FIRST_DAY - 1) == Date(-4800, 3, 0)
  {
    assert Quot(-1, 146097) == 0 && Quot(-1, 1461) == 0 && Quot(-3, 153) == 0;
  }

  /** getYearMonthDay enumerates the calendar: it agrees with counting days one at a time. */
  lemma {:induction false} EnumeratesCalendar(n: nat)
    ensures YearMonthDay(FIRST_DAY + n) == CountedFrom1March(n)
  {
    hide YearMonthDay, Number, Successor;
    if n == 0 {
      FirstDay();
    } else {
      EnumeratesCalendar(n - 1);
      NumberRoundTrip(FIRST_DAY + n - 1);
      SuccessorAddsOne(CountedFrom1March(n - 1));
      DateRoundTrip(CountedFrom1March(n));
    }
  }

  /** Comparing day numbers, as operator< on Date does, compares dates. */
  lemma OrderIsCalendarOrder(x: Date, y: Date)
    requires InDomain(x) && InDomain(y)
    ensures Number(x) < Number(y) <==> Before(x, y)
  {
    if x == y {
    } else if Before(x, y) {
      BeforeIsLess(x, y);
    } else {
      assert Before(y, x);
      BeforeIsLess(y, x);
    }
  }

  lemma BeforeIsLess(x: Date, y: Date)
    requires InDomain(x) && InDomain(y) && Before(x, y)
    ensures Number(x) < Number(y)
  {
    NumberByMarchYear(x);
    NumberByMarchYear(y);
    DayOfMarchYearBound(x);
    DayOfMarchYearBound(y);
    hide Number, DaysBefore, LongYear, DayOfMarchYear;
    if MarchYear(x) < MarchYear(y) {
      DaysBeforeGrows(MarchYear(x), MarchYear(y));
    } else {
      DayOfMarchYearGrows(x, y);
    }
  }

  lemma DayOfMarchYearGrows(x: Date, y: Date)
    requires Valid(x) && Valid(y) && Before(x, y) && MarchYear(x) >= MarchYear(y)
    ensures MarchYear(x) == MarchYear(y)
    ensures DayOfMarchYear(x) < DayOfMarchYear(y)
  {
    if x.month != y.month {
      assert MarchMonth(x) < MarchMonth(y);
    }
  }

  lemma {:induction false} DaysBeforeGrows(x: nat, y: nat)
    requires x < y
    ensures DaysBefore(x) + 365 + (if LongYear(x) then 1 else 0) <= DaysBefore(y)
    decreases y
  {
    YearLength(y - 1);
    if x < y - 1 {
      DaysBeforeGrows(x, y - 1);
    }
  }

  /** The week day advances cyclically from each date to the next. */
  lemma WeekDayAdvances(d: Date)
    requires InDomain(d)
    ensures (WeekDay(Number(Successor(d))) - WeekDay(Number(d)) - 1) % 7 == 0
    ensures Number(d) >= -1 ==> WeekDay(Number(Successor(d))) == (WeekDay(Number(d)) + 1) % 7
  {
    hide Number, Successor, InDomain, WeekDay;
    SuccessorAddsOne(d);
    WeekDayOfNext(Number(d));
  }

  lemma WeekDayOfNext(j: int)
    ensures (WeekDay(j + 1) - WeekDay(j) - 1) % 7 == 0
    ensures j >= -1 ==> WeekDay(j + 1) == (WeekDay(j) + 1) % 7
  {
  }

  /** weekDay promises 0..6. It keeps that promise exactly where truncation cannot go below zero. */
  lemma WeekDayRange(j: int)
    ensures 0 <= WeekDay(j) <= 6 <==> j >= -1 || (j + 1) % 7 == 0
  {
  }

  /** A day before the epoch of day numbers whose week day comes out negative. */
  lemma WeekDayNegative()
    ensures WeekDay(-3) == -2
  {
  }

  /** No intermediate value of getYearMonthDay leaves a 32-bit int, exactly up to day 536838867. */
  lemma FitsInt32(j: int)
    requires FIRST_DAY <= j
    ensures Int32(4 * (j + 32044) + 3) <==> j <= 536838867
    ensures j <= 536838867 ==>
              var a := j + 32044;
              var b := Quot(4 * a + 3, 146097);
              var c := a - Quot(b * 146097, 4);
              var d := Quot(4 * c + 3, 1461);
              Int32(b * 146097) && Int32(4 * c + 3) && Int32(1461 * d) && Int32(b * 100 + d - 4800)
  {
    var y, e := YearOf(j - FIRST_DAY);
    var b, d := y / 100, y % 100;
    LongYearByCentury(b, d);
    DaysBeforeByCentury(b, d);
    var c := 365 * d + d / 4 + e;
    FindsCentury(b, c);
    FindsYearOfCentury(d, e);
  }

  /** The running sum of getJulianDayNumber stays within 32 bits for every date of that range. */
  lemma NumberFitsInt32(d: Date)
    requires InDomain(d) && Number(d) <= 536838867
    ensures var y := MarchYear(d);
            var s1 := d.day + (153 * MarchMonth(d) + 2) / 5;
            var s2 := s1 + y * 365 + y / 4;
            Int32(y * 365) && Int32(s2) && Int32(s2 - y / 100) && Int32(s2 - y / 100 + y / 400) && Int32(Number(d))
  {
    NumberByMarchYear(d);
    DayOfMarchYearBound(d);
    hide Number, LongYear;
    assert MarchYear(d) <= 1470912;
  }
}
