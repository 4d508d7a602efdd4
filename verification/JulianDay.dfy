// src/common/date.cpp and date.h: day numbers, and the two ways the file converts
// between them and year, month and day. A BC year y is written -y; there is no year 0.

module JulianDay {

  datatype Ymd = Ymd(year: int, month: int, day: int)

  /** Conversion of a floating-point number to an integer. */
  function Trunc(r: real): int {
    if r >= 0.0 then r.Floor else -(-r).Floor
  }

  /** Integer division of the source. */
  function Div(a: int, b: int): int
    requires b > 0
  {
    if a >= 0 then a / b else -(-a / b)
  }

  // ----- The default method

  function YmdToJd(date: Ymd): int {
    var year0 := if date.year < 0 then date.year + 1 else date.year;
    var yearCorr := if year0 > 0 then 0.0 else 0.75;
    var year := if date.month <= 2 then year0 - 1 else year0;
    var month := if date.month <= 2 then date.month + 12 else date.month;
    var a := Div(year, 100);
    var b := if year as real * 10000.0 + month as real * 100.0 + date.day as real >= 15821015.0 then 2 - a + Div(a, 4)
      else 0;
    Trunc(365.25 * year as real - yearCorr) + Trunc(30.6001 * (month + 1) as real) + date.day + 1720995 + b
  }

  function JdToYmd(jd: int): Ymd {
    var z := jd;
    var alpha := Trunc((z as real - 1867216.25) / 36524.25);
    var a := if z < 2299161 then z else z + 1 + alpha - Div(alpha, 4);
    var b := a + 1524;
    var c := Trunc((b as real - 122.1) / 365.25);
    var d := Trunc(365.25 * c as real);
    var e := Trunc((b - d) as real / 30.6001);
    var day := b - d - Trunc(30.6001 * e as real);
    var month := if (e as real) < 13.5 then e - 1 else e - 13;
    var year := if month as real > 2.5 then c - 4716 else c - 4715;
    Ymd(if year <= 0 then year - 1 else year, month, day)
  }

  function IsLeapYear(year: int): bool {
    YmdToJd(Ymd(year, 3, 1)) - YmdToJd(Ymd(year, 2, 28)) > 1
  }

  // ----- The calendar: Julian to 4 October 1582, Gregorian from 15 October 1582

  /** Years counted through 0. */
  function Astronomical(year: int): int {
    if year < 0 then year + 1 else year
  }

  predicate Leap(year: int) {
    var a := Astronomical(year);
    a % 4 == 0 && (year > 1582 ==> a % 100 != 0 || a % 400 == 0)
  }

  function DaysIn(leap: bool, month: int): int {
    match month
    case 2 => if leap then 29 else 28
    case 4 => 30 case 6 => 30 case 9 => 30 case 11 => 30
    case _ => 31
  }

  predicate IsDate(date: Ymd) {
    date.year != 0 && 1 <= date.month <= 12 && 1 <= date.day <= DaysIn(Leap(date.year), date.month) &&
    !(date.year == 1582 && date.month == 10 && 5 <= date.day <= 14)
  }

  /** The day after, when the month of date has length days. */
  function NextDay(date: Ymd, length: int): Ymd {
    if date.day < length then date.(day := date.day + 1)
    else if date.month < 12 then Ymd(date.year, date.month + 1, 1)
    else Ymd(if date.year == -1 then 1 else date.year + 1, 1, 1)
  }

  function Successor(date: Ymd): Ymd {
    if date == Ymd(1582, 10, 4) then Ymd(1582, 10, 15)
    else NextDay(date, DaysIn(Leap(date.year), date.month))
  }

  // ----- The default method in integers

  /** Years that begin in March, months numbered 4 to 15. */
  function MarchYear(date: Ymd): int {
    if date.month <= 2 then Astronomical(date.year) - 1 else Astronomical(date.year)
  }

  function MarchMonth(date: Ymd): int {
    if date.month <= 2 then date.month + 13 else date.month + 1
  }

  /** Days before month e of a year that begins in March, plus 122. */
  function MonthDays(e: int): int {
    306001 * e / 10000
  }

  predicate AfterSwitch(date: Ymd) {
    MarchYear(date) * 10000 + (MarchMonth(date) - 1) * 100 + date.day >= 15821015
  }

  function Correction(y: int): int {
    2 - y / 100 + y / 400
  }

  lemma TruncYears(y: int)
    ensures y >= 0 ==> Trunc(365.25 * y as real - 0.0) == Trunc(365.25 * y as real) == 1461 * y / 4
    ensures y <= 0 ==> Trunc(365.25 * y as real - 0.75) == 1461 * y / 4
  {
    var r := 365.25 * y as real;
    assert 4.0 * r == (1461 * y) as real;
    if y >= 0 {
      assert (1461 * y / 4) as real <= r < (1461 * y / 4 + 1) as real;
    } else {
      assert (1461 * y / 4) as real >= r - 0.75 > (1461 * y / 4 - 1) as real;
    }
  }

  lemma TruncMonths(e: int)
    requires e >= 0
    ensures Trunc(30.6001 * e as real) == MonthDays(e)
  {
    var r := 30.6001 * e as real;
    assert 10000.0 * r == (306001 * e) as real;
    assert MonthDays(e) as real <= r < (MonthDays(e) + 1) as real;
  }

  lemma TruncCenturies(z: int)
    requires z >= 1867217
    ensures Trunc((z as real - 1867216.25) / 36524.25) == (4 * z - 7468865) / 146097
  {
    var r := (z as real - 1867216.25) / 36524.25;
    var q := (4 * z - 7468865) / 146097;
    assert 146097.0 * r == (4 * z - 7468865) as real;
    assert q as real <= r < (q + 1) as real;
  }

  lemma TruncMarchYear(b: int)
    requires b >= 123
    ensures Trunc((b as real - 122.1) / 365.25) == (20 * b - 2442) / 7305
  {
    var r := (b as real - 122.1) / 365.25;
    var q := (20 * b - 2442) / 7305;
    assert 7305.0 * r == (20 * b - 2442) as real;
    assert q as real <= r < (q + 1) as real;
  }

  lemma TruncMarchMonth(n: int)
    requires n >= 0
    ensures Trunc(n as real / 30.6001) == 10000 * n / 306001
  {
    var r := n as real / 30.6001;
    var q := 10000 * n / 306001;
    assert 306001.0 * r == (10000 * n) as real;
    assert q as real <= r < (q + 1) as real;
  }

  lemma YmdToJdInteger(date: Ymd)
    requires 1 <= date.month <= 12 && 1 <= date.day <= 31
    ensures YmdToJd(date) == 1461 * MarchYear(date) / 4 + MonthDays(MarchMonth(date)) + date.day + 1720995 +
                             (if AfterSwitch(date) then Correction(MarchYear(date)) else 0)
  {
    hide Trunc, MonthDays;
    TruncYears(MarchYear(date));
    TruncMonths(MarchMonth(date));
  }

  /** The day number on the uninterrupted Julian count, from the first March. */
  function JulianCount(z: int): int {
    var alpha := (4 * z - 7468865) / 146097;
    (if z < 2299161 then z else z + 1 + alpha - alpha / 4) + 1524
  }

  /** The date of day b of the Julian count: c counts years from March, e months from 4. */
  function Decoded(b: int): Ymd {
    var c := (20 * b - 2442) / 7305;
    var e := 10000 * (b - 1461 * c / 4) / 306001;
    Encoded(c, e, b - 1461 * c / 4 - MonthDays(e))
  }

  function Encoded(c: int, e: int, day: int): Ymd {
    var month := if e < 14 then e - 1 else e - 13;
    var year := if month > 2 then c - 4716 else c - 4715;
    Ymd(if year <= 0 then year - 1 else year, month, day)
  }

  lemma JdToYmdInteger(z: int)
    requires z >= 0
    ensures JdToYmd(z) == Decoded(JulianCount(z))
  {
    hide Trunc, MonthDays;
    if z >= 2299161 {
      TruncCenturies(z);
    }
    var b := JulianCount(z);
    DecodedFloating(b);
  }

  lemma DecodedFloating(b: int)
    requires b >= 1524
    ensures var c := Trunc((b as real - 122.1) / 365.25);
            var d := Trunc(365.25 * c as real);
            var e := Trunc((b - d) as real / 30.6001);
            Decoded(b) == Encoded(c, e, b - d - Trunc(30.6001 * e as real))
  {
    hide Trunc, MonthDays, Encoded;
    var c := (20 * b - 2442) / 7305;
    TruncMarchYear(b);
    TruncYears(c);
    assert b - 1461 * c / 4 >= 0;
    TruncMarchMonth(b - 1461 * c / 4);
    TruncMonths(10000 * (b - 1461 * c / 4) / 306001);
  }

  // ----- From a date to its day number and back

  /** The days of month e of the year from March c; the last month is a February. */
  function MarchLength(c: int, e: int): int {
    match e
    case 15 => if c % 4 == 3 then 29 else 28
    case 5 => 30 case 7 => 30 case 10 => 30 case 12 => 30
    case _ => 31
  }

  lemma DecodedEncodes(c: int, e: int, day: int)
    requires c >= 0 && 4 <= e <= 15 && 1 <= day <= MarchLength(c, e)
    ensures Decoded(1461 * c / 4 + MonthDays(e) + day) == Encoded(c, e, day)
  {
    var b := 1461 * c / 4 + MonthDays(e) + day;
    assert 123 <= MonthDays(e) + day <= 488 && (MonthDays(e) + day == 488 ==> c % 4 == 3);
    assert (20 * b - 2442) / 7305 == c;
    assert 10000 * (b - 1461 * c / 4) / 306001 == e;
  }

  lemma EncodedMarch(date: Ymd)
    requires IsDate(date)
    ensures Encoded(MarchYear(date) + 4716, MarchMonth(date), date.day) == date
    ensures 4 <= MarchMonth(date) <= 15 && 1 <= date.day <= MarchLength(MarchYear(date) + 4716, MarchMonth(date))
  {
  }

  /** 15 October 1582 is day 2299161. */
  lemma SwitchDay(date: Ymd)
    requires IsDate(date)
    ensures AfterSwitch(date) <==> YmdToJd(date) >= 2299161
  {
    YmdToJdInteger(date);
    var y, e := MarchYear(date), MarchMonth(date);
    if AfterSwitch(date) {
      assert y > 1582 || (y == 1582 && (e > 11 || (e == 11 && date.day >= 15)));
      assert 1461 * y / 4 + Correction(y) >= 1461 * 1582 / 4 + Correction(1582);
    } else {
      assert y < 1582 || (y == 1582 && (e < 11 || (e == 11 && date.day <= 4)));
    }
  }

  /** The century that a day after the switch falls in. */
  lemma CenturyOfDay(y: int, n: int)
    requires y >= 0 && 123 <= n <= 488 && (n == 488 ==> y % 4 == 3 && (y % 100 == 99 ==> y % 400 == 399))
    ensures (4 * (1461 * y / 4 + n + 1720995 + Correction(y)) - 7468865) / 146097 == y / 100 - 4
  {
    var q := y / 100;
    var r := y - 100 * q;
    assert 1461 * y / 4 == 36525 * q + 1461 * r / 4;
    assert y / 400 == q / 4;
  }

  lemma LastOfFebruary(date: Ymd)
    requires IsDate(date)
    ensures var y, n := MarchYear(date), MonthDays(MarchMonth(date)) + date.day;
            123 <= n <= 488 && (n == 488 ==> y % 4 == 3 && (AfterSwitch(date) && y % 100 == 99 ==> y % 400 == 399)) &&
            (AfterSwitch(date) ==> y >= 1582)
  {
  }

  lemma CountOfDate(date: Ymd)
    requires IsDate(date)
    ensures JulianCount(YmdToJd(date)) == 1461 * (MarchYear(date) + 4716) / 4 + MonthDays(MarchMonth(date)) + date.day
  {
    hide YmdToJd, IsDate, MarchYear, MarchMonth, MonthDays, AfterSwitch;
    InRange(date);
    YmdToJdInteger(date);
    SwitchDay(date);
    var y := MarchYear(date);
    assert 1461 * (y + 4716) / 4 == 1461 * y / 4 + 1722519;
    if AfterSwitch(date) {
      LastOfFebruary(date);
      CenturyOfDay(y, MonthDays(MarchMonth(date)) + date.day);
      assert (y / 100 - 4) / 4 == y / 400 - 1;
    }
  }

  lemma InRange(date: Ymd)
    requires IsDate(date)
    ensures 1 <= date.month <= 12 && 1 <= date.day <= 31
  {
  }

  /** Dates with a day number at or after 0 come back from it. */
  lemma DateRoundTrip(date: Ymd)
    requires IsDate(date) && YmdToJd(date) >= 0
    ensures JdToYmd(YmdToJd(date)) == date
  {
    hide YmdToJd, JdToYmd, JulianCount, Decoded, Encoded, IsDate, MarchYear, MarchMonth, MonthDays;
    JdToYmdInteger(YmdToJd(date));
    CountOfDate(date);
    EncodedMarch(date);
    NotBeforeCount(date);
    DecodedEncodes(MarchYear(date) + 4716, MarchMonth(date), date.day);
  }

  lemma NotBeforeCount(date: Ymd)
    requires IsDate(date) && YmdToJd(date) >= 0
    ensures MarchYear(date) + 4716 >= 0
  {
    YmdToJdInteger(date);
  }

  // ----- One day after another

  lemma SuccessorIsDate(date: Ymd)
    requires IsDate(date)
    ensures IsDate(Successor(date))
  {
  }

  /** The month and year count of the day after. */
  lemma SuccessorMarch(date: Ymd)
    requires IsDate(date) && date != Ymd(1582, 10, 4)
    ensures var next, y, e := Successor(date), MarchYear(date), MarchMonth(date);
            if date.day < DaysIn(Leap(date.year), date.month) then next.day == date.day + 1 && MarchYear(next) == y &&
               MarchMonth(next) == e
            else next.day == 1 && if e < 15 then MarchYear(next) == y && MarchMonth(next) == e + 1
              else MarchYear(next) == y + 1 && MarchMonth(next) == 4
    ensures AfterSwitch(Successor(date)) <==> AfterSwitch(date)
  {
  }

  lemma MonthGap(e: int)
    requires 4 <= e < 15
    ensures MonthDays(e + 1) - MonthDays(e) == MarchLength(0, e)
  {
  }

  /** Whether the February that ends the year from March y has 29 days. */
  function ExtraDay(y: int, gregorian: bool): int {
    if (y + 1) % 4 == 0 && (gregorian ==> (y + 1) % 100 != 0 || (y + 1) % 400 == 0) then 1 else 0
  }

  lemma Carries(y: int)
    ensures (y + 1) / 100 - y / 100 == if (y + 1) % 100 == 0 then 1 else 0
    ensures (y + 1) / 400 - y / 400 == if (y + 1) % 400 == 0 then 1 else 0
    ensures 1461 * (y + 1) / 4 - 1461 * y / 4 == 365 + if (y + 1) % 4 == 0 then 1 else 0
  {
  }

  lemma Divisors(y: int)
    ensures y % 400 == 0 ==> y % 100 == 0
    ensures y % 100 == 0 ==> y % 4 == 0
  {
  }

  lemma YearLength(y: int)
    ensures 1461 * (y + 1) / 4 - 1461 * y / 4 == 365 + ExtraDay(y, false)
    ensures Correction(y + 1) - Correction(y) == ExtraDay(y, true) - ExtraDay(y, false)
  {
    Carries(y);
    Divisors(y + 1);
  }

  /** The length of the year that ends with the February of date. */
  lemma YearGap(date: Ymd)
    requires IsDate(date) && MarchMonth(date) == 15
    ensures var y, c := MarchYear(date), if AfterSwitch(date)
            then Correction(MarchYear(date) + 1) - Correction(MarchYear(date)) else 0;
            1461 * (y + 1) / 4 - 1461 * y / 4 + c == 337 + DaysIn(Leap(date.year), date.month)
  {
    hide Correction;
    YearLength(MarchYear(date));
  }

  lemma SuccessorDay(date: Ymd)
    requires IsDate(date)
    ensures YmdToJd(Successor(date)) == YmdToJd(date) + 1
  {
    SuccessorIsDate(date);
    InRange(date);
    InRange(Successor(date));
    YmdToJdInteger(date);
    YmdToJdInteger(Successor(date));
    if date != Ymd(1582, 10, 4) {
      hide YmdToJd, IsDate, AfterSwitch, MarchYear, MarchMonth, MonthDays, Successor, Leap, Correction;
      SuccessorMarch(date);
      EncodedMarch(date);
      if MarchMonth(date) < 15 {
        MonthLength(date);
        MonthGap(MarchMonth(date));
      } else {
        YearGap(date);
        YearStarts();
      }
    }
  }

  lemma YearStarts()
    ensures MonthDays(4) == 122 && MonthDays(15) == 459
  {
  }

  lemma MonthLength(date: Ymd)
    requires IsDate(date) && MarchMonth(date) < 15
    ensures DaysIn(Leap(date.year), date.month) == MarchLength(0, MarchMonth(date))
  {
  }

  // ----- Every day number from 0 on

  lemma {:induction false} EveryDay(jd: nat)
    ensures IsDate(JdToYmd(jd)) && YmdToJd(JdToYmd(jd)) == jd
  {
    hide YmdToJd, JdToYmd, IsDate, Successor;
    if jd == 0 {
      DayZero();
    } else {
      EveryDay(jd - 1);
      var date := JdToYmd(jd - 1);
      SuccessorIsDate(date);
      SuccessorDay(date);
      DateRoundTrip(Successor(date));
    }
  }

  lemma DayZero()
    ensures JdToYmd(0) == Ymd(-4713, 1, 1) && IsDate(JdToYmd(0)) && YmdToJd(JdToYmd(0)) == 0
  {
    JdToYmdInteger(0);
    YmdToJdInteger(Ymd(-4713, 1, 1));
  }

  /** The date of the next day number is the next day of the calendar. */
  lemma NextDayNumber(jd: nat)
    ensures JdToYmd(jd + 1) == Successor(JdToYmd(jd))
  {
    hide YmdToJd, JdToYmd, IsDate, Successor;
    EveryDay(jd);
    SuccessorIsDate(JdToYmd(jd));
    SuccessorDay(JdToYmd(jd));
    DateRoundTrip(Successor(JdToYmd(jd)));
  }

  /** IsLeapYear follows the calendar, year 0 being taken for 1 BC. */
  lemma LeapYears(year: int)
    ensures IsLeapYear(year) <==> Leap(if year == 0 then -1 else year)
  {
    hide YmdToJd, Correction;
    YmdToJdInteger(Ymd(year, 3, 1));
    YmdToJdInteger(Ymd(year, 2, 28));
    YearLength(Astronomical(year) - 1);
    YearStarts();
  }
}
