// The Date class of src/common/date.h over the default conversions: arithmetic on the
// day number read as steps through the calendar.

module DateClass {
  import opened JulianDay

  /** The date n days after date. */
  function Later(date: Ymd, n: nat): Ymd {
    if n == 0 then date else Successor(Later(date, n - 1))
  }

  lemma {:induction false} DaysLater(jd: nat, n: nat)
    ensures JdToYmd(jd + n) == Later(JdToYmd(jd), n)
  {
    hide JdToYmd, Successor;
    if n > 0 {
      DaysLater(jd, n - 1);
      NextDayNumber(jd + n - 1);
    }
  }

  // ----- The week and the year

  /** 0 is Monday. */
  function DayOfWorkWeek(jd: int): int {
    jd - 7 * Div(jd, 7)
  }

  /** 0 is Sunday. */
  function DayOfWeek(jd: int): int {
    var n := DayOfWorkWeek(jd) + 1;
    n - 7 * Div(n, 7)
  }

  /** The week goes on through the calendar, also from Thursday 4 to Friday 15 October 1582. */
  lemma WeekGoesOn(date: Ymd)
    requires IsDate(date) && YmdToJd(date) >= 0
    ensures var jd, next := YmdToJd(date), YmdToJd(Successor(date));
            0 <= DayOfWorkWeek(jd) < 7 && DayOfWorkWeek(next) == (DayOfWorkWeek(jd) + 1) % 7 &&
            DayOfWeek(jd) == DayOfWorkWeek(next)
  {
    hide YmdToJd, IsDate, Successor;
    SuccessorDay(date);
  }

  lemma KnownDays()
    ensures DayOfWorkWeek(YmdToJd(Ymd(1582, 10, 4))) == 3 && DayOfWorkWeek(YmdToJd(Ymd(2000, 1, 1))) == 5
  {
    YmdToJdInteger(Ymd(1582, 10, 4));
    YmdToJdInteger(Ymd(2000, 1, 1));
  }

  function DayOfYear(jd: int): int {
    jd - YmdToJd(Ymd(JdToYmd(jd).year, 1, 1)) + 1
  }

  /** DayOfYear is 1 on 1 January and goes up by one on every other day. */
  lemma DayOfYearCounts(jd: nat)
    ensures var date := JdToYmd(jd);
            if date.month == 1 && date.day == 1 then DayOfYear(jd) == 1
            else jd > 0 && DayOfYear(jd) == DayOfYear(jd - 1) + 1
  {
    hide YmdToJd, JdToYmd;
    EveryDay(jd);
    DayZero();
    if jd > 0 {
      NextDayNumber(jd - 1);
      EveryDay(jd - 1);
    }
  }

  // ----- The class

  class Date {
    var julianDay: int

    /** The year, month and day that YMD, Year, Month and Day give. */
    function Calendar(): Ymd
      reads this
    {
      JdToYmd(julianDay)
    }

    constructor ()
      ensures julianDay == 0 && Calendar() == Ymd(-4713, 1, 1)
    {
      julianDay := 0;
      new;
      hide JdToYmd, YmdToJd;
      DayZero();
    }

    constructor FromDayMonthYear(day: int, month: int, year: int)
      ensures julianDay == YmdToJd(Ymd(year, month, day))
      ensures IsDate(Ymd(year, month, day)) && julianDay >= 0 ==> Calendar() == Ymd(year, month, day)
    {
      julianDay := YmdToJd(Ymd(year, month, day));
      new;
      hide JdToYmd, YmdToJd, IsDate;
      if IsDate(Ymd(year, month, day)) && julianDay >= 0 {
        DateRoundTrip(Ymd(year, month, day));
      }
    }

    method Increment()
      modifies this
      ensures julianDay == old(julianDay) + 1
      ensures old(julianDay) >= 0 ==> Calendar() == Successor(old(Calendar()))
    {
      hide JdToYmd, YmdToJd, Successor;
      if julianDay >= 0 {
        NextDayNumber(julianDay);
      }
      julianDay := julianDay + 1;
    }

    method Decrement()
      modifies this
      ensures julianDay == old(julianDay) - 1
      ensures old(julianDay) >= 1 ==> Successor(Calendar()) == old(Calendar())
    {
      hide JdToYmd, YmdToJd, Successor;
      if julianDay >= 1 {
        NextDayNumber(julianDay - 1);
      }
      julianDay := julianDay - 1;
    }

    method AddAssign(days: int)
      modifies this
      ensures julianDay == old(julianDay) + days
      ensures old(julianDay) >= 0 && days >= 0 ==> Calendar() == Later(old(Calendar()), days)
      ensures julianDay >= 0 && days <= 0 ==> Later(Calendar(), -days) == old(Calendar())
    {
      hide JdToYmd, YmdToJd, Later;
      if julianDay >= 0 && days >= 0 {
        DaysLater(julianDay, days);
      }
      if julianDay + days >= 0 && days <= 0 {
        DaysLater(julianDay + days, -days);
      }
      julianDay := julianDay + days;
    }

    method SubtractAssign(days: int)
      modifies this
      ensures julianDay == old(julianDay) - days
      ensures julianDay >= 0 && days >= 0 ==> Later(Calendar(), days) == old(Calendar())
      ensures old(julianDay) >= 0 && days <= 0 ==> Calendar() == Later(old(Calendar()), -days)
    {
      AddAssign(-days);
    }

    /** The days from one date to another count the steps through the calendar. */
    method Minus(right: Date) returns (days: int)
      ensures days == julianDay - right.julianDay
      ensures right.julianDay >= 0 && days >= 0 ==> Calendar() == Later(right.Calendar(), days)
    {
      hide JdToYmd, YmdToJd, Later;
      days := julianDay - right.julianDay;
      if right.julianDay >= 0 && days >= 0 {
        DaysLater(right.julianDay, days);
      }
    }
  }
}
