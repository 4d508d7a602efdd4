// The conversions of src/common/date.cpp compiled with JULDATE_USE_ALTERNATE_METHOD:
// integers only, and the Gregorian calendar extended to all years.

module AlternateDay {
  import opened JulianDay

  function YmdToJd(date: Ymd): int {
    var year := if date.year < 0 then date.year + 1 else date.year;
    var a := Div(date.month - 14, 12);
    date.day - 32075 +
    Div(1461 * (year + 4800 + a), 4) +
    Div(367 * (date.month - 2 - a * 12), 12) -
    Div(3 * Div(year + 4900 + a, 100), 4)
  }

  function JdToYmd(jd: int): Ymd {
    var t1 := jd + 68569;
    var t2 := Div(4 * t1, 146097);
    var t3 := t1 - Div(146097 * t2 + 3, 4);
    var yr := Div(4000 * (t3 + 1), 1461001);
    var t4 := t3 - Div(1461 * yr, 4) + 31;
    var mo := Div(80 * t4, 2447);
    var day := t4 - Div(2447 * mo, 80);
    var t5 := Div(mo, 11);
    var year := 100 * (t2 - 49) + yr + t5;
    Ymd(if year <= 0 then year - 1 else year, mo + 2 - 12 * t5, day)
  }

  // ----- The calendar

  predicate LeapGregorian(year: int) {
    var a := Astronomical(year);
    a % 4 == 0 && (a % 100 != 0 || a % 400 == 0)
  }

  predicate IsGregorian(date: Ymd) {
    date.year != 0 && 1 <= date.month <= 12 && 1 <= date.day <= DaysIn(LeapGregorian(date.year), date.month)
  }

  function SuccessorGregorian(date: Ymd): Ymd {
    NextDay(date, DaysIn(LeapGregorian(date.year), date.month))
  }

  // ----- Years counted from March 4900 years early, months 1 to 12 from March

  function Y(date: Ymd): int {
    Astronomical(date.year) + 4900 - if date.month <= 2 then 1 else 0
  }

  function M(date: Ymd): int {
    if date.month <= 2 then date.month + 10 else date.month - 2
  }

  function DaysBefore(m: int): int {
    367 * m / 12 - 30
  }

  /** Days before March year u, from March year 0. */
  function YearsBefore(u: int): int {
    1461 * u / 4 - 3 * (u / 100) / 4
  }

  /** Days from the start of March year u to a day of it, the first day being 0. */
  function DayOfYear(date: Ymd): int {
    DaysBefore(M(date)) + date.day - 1
  }

  lemma YmdToJdInteger(date: Ymd)
    requires 1 <= date.month <= 12 && Y(date) >= 100
    ensures YmdToJd(date) + 68569 == YearsBefore(Y(date)) + DayOfYear(date)
  {
    var u := Y(date);
    assert Div(date.month - 14, 12) == if date.month <= 2 then -1 else 0;
    assert 1461 * (u - 100) / 4 == 1461 * u / 4 - 36525;
  }

  /** What the inverse finds from day n of the year r of century h. */
  function Located(h: int, r: int, n: int): Ymd {
    var mo := 80 * (n + 31) / 2447;
    var t5 := mo / 11;
    var year := 100 * (h - 49) + r + t5;
    Ymd(if year <= 0 then year - 1 else year, mo + 2 - 12 * t5, n + 31 - 2447 * mo / 80)
  }

  lemma Scaled(d: int, a: int, b: int)
    requires d > 0 && a < b
    ensures d * a + d <= d * b
  {
    assert d * (b - a - 1) >= 0;
  }

  lemma Quotient(n: int, d: int, q: int)
    requires d > 0 && d * q <= n < d * q + d
    ensures n / d == q
  {
    if n / d < q {
      Scaled(d, n / d, q);
    } else if n / d > q {
      Scaled(d, q, n / d);
    }
  }

  lemma QuarterCenturies(h: int)
    ensures 3 * h - 4 * (3 * h / 4) == if h % 4 == 0 then 0 else 4 - h % 4
  {
  }

  lemma YearsInCentury(r: int, n: int)
    requires 0 <= r < 100 && 0 <= n <= 365 && (n == 365 ==> r % 4 == 3)
    ensures 0 <= 1461 * r / 4 + n <= 36523 || (r == 99 && 1461 * r / 4 + n == 36524)
  {
    assert 1461 * r / 4 == 365 * r + r / 4;
  }

  /** Days from March year 0 to day n of year r of century h. */
  function DayCount(h: int, r: int, n: int): int {
    36525 * h + 1461 * r / 4 - 3 * h / 4 + n
  }

  lemma CenturyFound(h: int, r: int, n: int)
    requires h >= 0 && 0 <= r < 100 && 0 <= n <= 365 && (n == 365 ==> r % 4 == 3 && (r == 99 ==> h % 4 == 0))
    ensures var t1 := DayCount(h, r, n);
            t1 >= 0 && 4 * t1 / 146097 == h && t1 - (146097 * h + 3) / 4 == 1461 * r / 4 + n
  {
    QuarterCenturies(h);
    YearsInCentury(r, n);
    InCentury(h, 3 * h / 4, 1461 * r / 4 + n);
  }

  lemma InCentury(h: int, g: int, d: int)
    requires 0 <= h && 0 <= 3 * h - 4 * g <= 3 && 0 <= d <= 36524 && (d == 36524 ==> 3 * h == 4 * g)
    ensures 36525 * h - g + d >= 0 && 4 * (36525 * h - g + d) / 146097 == h && (146097 * h + 3) / 4 == 36525 * h - g
  {
    Quotient(4 * (36525 * h - g + d), 146097, h);
    Quotient(146097 * h + 3, 4, 36525 * h - g);
  }

  lemma YearFound(r: int, n: int)
    requires 0 <= r < 100 && 0 <= n <= 365 && (n == 365 ==> r % 4 == 3)
    ensures 4000 * (1461 * r / 4 + n + 1) / 1461001 == r
  {
    var a := r / 4;
    var b := r % 4;
    assert 1461 * r / 4 == 1461 * a + 365 * b;
  }

  lemma JdToYmdInteger(h: int, r: int, n: int)
    requires h >= 0 && 0 <= r < 100 && 0 <= n <= 365 && (n == 365 ==> r % 4 == 3 && (r == 99 ==> h % 4 == 0))
    ensures JdToYmd(DayCount(h, r, n) - 68569) == Located(h, r, n)
  {
    hide JdToYmd, Located, DayCount;
    CenturyFound(h, r, n);
    YearFound(r, n);
    FromYear(DayCount(h, r, n), h, r, n);
  }

  lemma DivPositive(a: nat, b: int)
    requires b > 0
    ensures Div(a, b) == a / b
  {
  }

  lemma FromYear(t1: int, h: int, r: int, n: int)
    requires h >= 0 && r >= 0 && n >= 0 && t1 >= 0
    requires 4 * t1 / 146097 == h && t1 - (146097 * h + 3) / 4 == 1461 * r / 4 + n &&
             4000 * (1461 * r / 4 + n + 1) / 1461001 == r
    ensures JdToYmd(t1 - 68569) == Located(h, r, n)
  {
    hide Div;
    DivPositive(4 * t1, 146097);
    DivPositive(146097 * h + 3, 4);
    DivPositive(4000 * (1461 * r / 4 + n + 1), 1461001);
    DivPositive(1461 * r, 4);
    DivPositive(80 * (n + 31), 2447);
    var mo := 80 * (n + 31) / 2447;
    DivPositive(mo, 11);
    DivPositive(2447 * mo, 80);
  }

  // ----- From a date to its day number and back

  lemma DayInYear(date: Ymd)
    requires IsGregorian(date)
    ensures var u, n := Y(date), DayOfYear(date);
            0 <= n <= 365 && (n == 365 ==> u % 4 == 3 && (u % 100 == 99 ==> u % 400 == 99))
  {
    if date.month == 2 && date.day == 29 {
      var a := Astronomical(date.year);
      assert a % 4 == 0 && (a % 100 != 0 || a % 400 == 0);
      BeforeLeap(a);
    } else {
      assert DayOfYear(date) < 365;
    }
  }

  lemma BeforeLeap(a: int)
    requires a % 4 == 0 && (a % 100 != 0 || a % 400 == 0)
    ensures (a + 4899) % 4 == 3 && ((a + 4899) % 100 == 99 ==> (a + 4899) % 400 == 99)
  {
  }

  lemma LocatedDate(date: Ymd)
    requires IsGregorian(date) && Y(date) >= 0
    ensures Located(Y(date) / 100, Y(date) % 100, DayOfYear(date)) == date
  {
    MonthFound(date.month, date.day, DaysIn(LeapGregorian(date.year), date.month));
  }

  lemma MonthFound(month: int, day: int, length: int)
    requires 1 <= month <= 12 && 1 <= day <= length && (length == DaysIn(true, month) || length == DaysIn(false, month))
    ensures var m := if month <= 2 then month + 10 else month - 2;
            80 * (DaysBefore(m) + day - 1 + 31) / 2447 == m && 2447 * m / 80 == DaysBefore(m) + 30
  {
  }

  lemma NotBeforeCount(date: Ymd)
    requires IsGregorian(date) && YmdToJd(date) >= 0
    ensures Y(date) >= 100
  {
  }

  lemma DateRoundTrip(date: Ymd)
    requires IsGregorian(date) && YmdToJd(date) >= 0
    ensures JdToYmd(YmdToJd(date)) == date
  {
    hide YmdToJd, JdToYmd, IsGregorian, Located, DayOfYear, Y;
    var u, n := Y(date), DayOfYear(date);
    NotBeforeCount(date);
    InRange(date);
    YmdToJdInteger(date);
    DayInYear(date);
    LocatedDate(date);
    Centuries(u);
    JdToYmdInteger(u / 100, u % 100, n);
  }

  lemma InRange(date: Ymd)
    requires IsGregorian(date)
    ensures 1 <= date.month <= 12 && 1 <= date.day <= 31
  {
  }

  lemma Centuries(u: int)
    ensures 1461 * u / 4 == 36525 * (u / 100) + 1461 * (u % 100) / 4
    ensures u % 400 == 99 <==> u % 100 == 99 && u / 100 % 4 == 0
    ensures u % 4 == u % 100 % 4
  {
    var h, r := u / 100, u % 100;
    var k, m := h / 4, h % 4;
    assert u == 100 * h + r;
    Quotient(1461 * u, 4, 36525 * h + 1461 * r / 4);
    Quotient(u, 400, k);
    Quotient(u, 4, 25 * h + r / 4);
  }

  // ----- One day after another

  lemma SuccessorIsGregorian(date: Ymd)
    requires IsGregorian(date)
    ensures IsGregorian(SuccessorGregorian(date))
  {
  }

  lemma SuccessorMarch(date: Ymd)
    requires IsGregorian(date)
    ensures var next, u, m := SuccessorGregorian(date), Y(date), M(date);
            if date.day < DaysIn(LeapGregorian(date.year), date.month) then next.day == date.day + 1 && Y(next) == u &&
               M(next) == m
            else next.day == 1 && if m < 12 then Y(next) == u && M(next) == m + 1 else Y(next) == u + 1 && M(next) == 1
    ensures 1 <= M(date) <= 12 && date.day <= DaysIn(LeapGregorian(date.year), date.month)
  {
  }

  lemma MonthGap(date: Ymd)
    requires IsGregorian(date) && M(date) < 12
    ensures DaysBefore(M(date) + 1) - DaysBefore(M(date)) == DaysIn(LeapGregorian(date.year), date.month)
  {
  }

  /** Whether the year from March u ends with a February of 29 days. */
  function ExtraDay(u: int): int {
    if (u + 1) % 4 == 0 && ((u + 1) % 100 != 0 || (u + 1) % 400 == 100) then 1 else 0
  }

  lemma CenturyStep(h: int)
    ensures 3 * (h + 1) / 4 - 3 * h / 4 == if (h + 1) % 4 == 1 then 0 else 1
  {
  }

  lemma CenturyOf(u: int)
    requires u % 100 == 0
    ensures u % 4 == 0 && (u % 400 == 100 <==> u / 100 % 4 == 1)
  {
    var h := u / 100;
    assert u == 100 * h;
  }

  lemma YearLength(u: int)
    ensures YearsBefore(u + 1) - YearsBefore(u) == 365 + ExtraDay(u)
  {
    Carries(u);
    CenturyStep(u / 100);
    if (u + 1) % 100 == 0 {
      CenturyOf(u + 1);
    }
  }

  lemma LastMonth(date: Ymd)
    requires IsGregorian(date) && M(date) == 12
    ensures 337 + DaysIn(LeapGregorian(date.year), date.month) == 365 + ExtraDay(Y(date))
  {
  }

  lemma YearStarts()
    ensures DaysBefore(1) == 0 && DaysBefore(12) == 337
  {
  }

  lemma SuccessorDay(date: Ymd)
    requires IsGregorian(date) && Y(date) >= 100
    ensures YmdToJd(SuccessorGregorian(date)) == YmdToJd(date) + 1 && Y(SuccessorGregorian(date)) >= 100
  {
    hide YmdToJd, IsGregorian, Y, M, DaysBefore, SuccessorGregorian, LeapGregorian;
    SuccessorIsGregorian(date);
    SuccessorMarch(date);
    InRange(date);
    InRange(SuccessorGregorian(date));
    YmdToJdInteger(date);
    YmdToJdInteger(SuccessorGregorian(date));
    YearStarts();
    hide ExtraDay, YearsBefore;
    if M(date) < 12 {
      MonthGap(date);
    } else {
      YearLength(Y(date));
      LastMonth(date);
    }
  }

  // ----- Every day number from 0 on

  lemma DayZero()
    ensures JdToYmd(0) == Ymd(-4714, 11, 24) && IsGregorian(JdToYmd(0)) && YmdToJd(JdToYmd(0)) == 0
  {
    hide YmdToJd, JdToYmd;
    YmdToJdInteger(Ymd(-4714, 11, 24));
    DateRoundTrip(Ymd(-4714, 11, 24));
  }

  lemma {:induction false} EveryDay(jd: nat)
    ensures IsGregorian(JdToYmd(jd)) && YmdToJd(JdToYmd(jd)) == jd
  {
    hide YmdToJd, JdToYmd, IsGregorian, SuccessorGregorian, Y;
    if jd == 0 {
      DayZero();
    } else {
      EveryDay(jd - 1);
      var date := JdToYmd(jd - 1);
      NotBeforeCount(date);
      SuccessorIsGregorian(date);
      SuccessorDay(date);
      DateRoundTrip(SuccessorGregorian(date));
    }
  }

  lemma NextDayNumber(jd: nat)
    ensures JdToYmd(jd + 1) == SuccessorGregorian(JdToYmd(jd))
  {
    hide YmdToJd, JdToYmd, IsGregorian, SuccessorGregorian, Y;
    EveryDay(jd);
    NotBeforeCount(JdToYmd(jd));
    SuccessorIsGregorian(JdToYmd(jd));
    SuccessorDay(JdToYmd(jd));
    DateRoundTrip(SuccessorGregorian(JdToYmd(jd)));
  }

  // ----- The two methods

  lemma SwitchDate()
    ensures JdToYmd(2299161) == Ymd(1582, 10, 15)
  {
    hide YmdToJd, JdToYmd;
    YmdToJdInteger(Ymd(1582, 10, 15));
    DateRoundTrip(Ymd(1582, 10, 15));
  }

  lemma SwitchDates()
    ensures JdToYmd(2299161) == JulianDay.JdToYmd(2299161) == Ymd(1582, 10, 15)
  {
    hide YmdToJd, JdToYmd, JulianDay.YmdToJd, JulianDay.JdToYmd;
    SwitchDate();
    JulianDay.YmdToJdInteger(Ymd(1582, 10, 15));
    JulianDay.DateRoundTrip(Ymd(1582, 10, 15));
  }

  lemma SameSuccessor(date: Ymd)
    requires IsDate(date) && JulianDay.YmdToJd(date) >= 2299161
    ensures Successor(date) == SuccessorGregorian(date)
  {
    hide JulianDay.YmdToJd;
    SwitchDay(date);
  }

  /** From 15 October 1582 on the two methods give the same dates. */
  lemma {:induction false} MethodsAgree(jd: int)
    requires jd >= 2299161
    ensures JdToYmd(jd) == JulianDay.JdToYmd(jd)
    decreases jd
  {
    hide YmdToJd, JdToYmd, JulianDay.YmdToJd, JulianDay.JdToYmd, IsDate, Successor, SuccessorGregorian;
    if jd == 2299161 {
      SwitchDates();
    } else {
      MethodsAgree(jd - 1);
      NextDayNumber(jd - 1);
      JulianDay.NextDayNumber(jd - 1);
      JulianDay.EveryDay(jd - 1);
      SameSuccessor(JulianDay.JdToYmd(jd - 1));
    }
  }

  /** And the same day numbers for dates. */
  lemma MethodsAgreeOnDates(date: Ymd)
    requires IsDate(date) && JulianDay.YmdToJd(date) >= 2299161
    ensures YmdToJd(date) == JulianDay.YmdToJd(date)
  {
    hide YmdToJd, JdToYmd, JulianDay.YmdToJd, JulianDay.JdToYmd, IsDate;
    var jd := JulianDay.YmdToJd(date);
    JulianDay.DateRoundTrip(date);
    MethodsAgree(jd);
    EveryDay(jd);
  }
}
