/** Gregorian dates as ECMAScript reckons them (section 21.4.1 of ECMA-262), and Dhaka wall-clock time on top. */
module CivilTime {
  import opened Prelude

  const DHAKA_UTC_OFFSET_MINUTES := 360

  // ---------------------------------------------------------------- years and months

  /** The day number of the first of January, day 0 being 1970-01-01. */
  function DayFromYear(y: int): int {
    365 * (y - 1970) + (y - 1969) / 4 - (y - 1901) / 100 + (y - 1601) / 400
  }

  predicate Leap(y: int) {
    y % 4 == 0 && (y % 100 != 0 || y % 400 == 0)
  }

  function YearLength(y: int): int {
    if Leap(y) then 366 else 365
  }

  lemma NextYear(y: int)
    ensures DayFromYear(y + 1) == DayFromYear(y) + YearLength(y)
  {
    FourthYears(y);
    HundredthYears(y);
    FourHundredthYears(y);
  }

  lemma FourthPart(x: int, q: int, r: int)
    requires x == 4 * q + r && 0 <= r < 4
    ensures x / 4 == q
  {
  }

  lemma FourthYears(y: int)
    ensures (y - 1968) / 4 == (y - 1969) / 4 + (if y % 4 == 0 then 1 else 0)
  {
    var olympiad, r := y / 4, y % 4;
    FourthPart(y - 1968, olympiad - 492, r);
    FourthPart(y - 1969, if r == 0 then olympiad - 493 else olympiad - 492, if r == 0 then 3 else r - 1);
  }

  lemma HundredthPart(x: int, q: int, r: int)
    requires x == 100 * q + r && 0 <= r < 100
    ensures x / 100 == q
  {
  }

  lemma HundredthYears(y: int)
    ensures (y - 1900) / 100 == (y - 1901) / 100 + (if y % 100 == 0 then 1 else 0)
    ensures y % 100 == 0 ==> y % 4 == 0
  {
    var century, r := y / 100, y % 100;
    HundredthPart(y - 1900, century - 19, r);
    HundredthPart(y - 1901, if r == 0 then century - 20 else century - 19, if r == 0 then 99 else r - 1);
  }

  lemma FourHundredthPart(x: int, q: int, r: int)
    requires x == 400 * q + r && 0 <= r < 400
    ensures x / 400 == q
  {
  }

  lemma FourHundredthYears(y: int)
    ensures (y - 1600) / 400 == (y - 1601) / 400 + (if y % 400 == 0 then 1 else 0)
    ensures y % 400 == 0 ==> y % 100 == 0
  {
    var cycle, r := y / 400, y % 400;
    FourHundredthPart(y - 1600, cycle - 4, r);
    FourHundredthPart(y - 1601, if r == 0 then cycle - 5 else cycle - 4, if r == 0 then 399 else r - 1);
  }

  lemma {:induction false} YearsAdvance(y: int, z: int)
    requires y <= z
    ensures DayFromYear(y) + 365 * (z - y) <= DayFromYear(z)
    decreases z - y
  {
    if y < z {
      YearsAdvance(y, z - 1);
      NextYear(z - 1);
    }
  }

  /** Days of the year before a month; month 12 stands for the end of the year. */
  function MonthStart(leap: bool, month: int): int
    requires 0 <= month <= 12
  {
    var shift := if leap && month >= 2 then 1 else 0;
    [0, 31, 59, 90, 120, 151, 181, 212, 243, 273, 304, 334, 365][month] + shift
  }

  function DaysInMonth(y: int, month: int): int
    requires 0 <= month < 12
  {
    MonthStart(Leap(y), month + 1) - MonthStart(Leap(y), month)
  }

  datatype Date = Date(year: int, month: int, day: int) {
    /** A date that is on the calendar; months count from 0. */
    predicate Real() {
      0 <= month < 12 && 1 <= day <= DaysInMonth(year, month)
    }

    predicate Before(that: Date) {
      year < that.year || (year == that.year && (month < that.month || (month == that.month && day < that.day)))
    }
  }

  // ---------------------------------------------------------------- days to dates and back

  /** MakeDay: months carry into years, and the day of the month simply counts on. */
  function MakeDay(year: int, month: int, day: int): int {
    var y, m := year + month / 12, month % 12;
    DayFromYear(y) + MonthStart(Leap(y), m) + day - 1
  }

  lemma YearsBeginInOrder(y: int)
    ensures DayFromYear(y) < DayFromYear(y + 1)
  {
  }

  /** The year a day lies in, counting years up from one that has begun by then. */
  function YearFrom(day: int, y: int): int
    requires DayFromYear(y) <= day
    decreases day - DayFromYear(y)
  {
    YearsBeginInOrder(y);
    if day < DayFromYear(y + 1) then y else YearFrom(day, y + 1)
  }

  /** The year a day lies in, counting years down from one that begins after it. */
  function YearBefore(day: int, y: int): int
    requires day < DayFromYear(y)
    decreases DayFromYear(y) - day
  {
    YearsBeginInOrder(y - 1);
    if DayFromYear(y - 1) <= day then y - 1 else YearBefore(day, y - 1)
  }

  /** YearFromTime. */
  function YearOf(day: int): int {
    if day >= 0 then YearFrom(day, 1970) else YearBefore(day, 1970)
  }

  lemma {:induction false} YearFromHolds(day: int, y: int)
    requires DayFromYear(y) <= day
    ensures DayFromYear(YearFrom(day, y)) <= day < DayFromYear(YearFrom(day, y) + 1)
    decreases day - DayFromYear(y)
  {
    YearsBeginInOrder(y);
    if day >= DayFromYear(y + 1) {
      YearFromHolds(day, y + 1);
    }
  }

  lemma {:induction false} YearBeforeHolds(day: int, y: int)
    requires day < DayFromYear(y)
    ensures DayFromYear(YearBefore(day, y)) <= day < DayFromYear(YearBefore(day, y) + 1)
    decreases DayFromYear(y) - day
  {
    YearsBeginInOrder(y - 1);
    if day < DayFromYear(y - 1) {
      YearBeforeHolds(day, y - 1);
    }
  }

  predicate LiesIn(day: int, y: int) {
    0 <= day - DayFromYear(y) < YearLength(y)
  }

  lemma YearOfHolds(day: int)
    ensures LiesIn(day, YearOf(day))
  {
    if day >= 0 { YearFromHolds(day, 1970); } else { YearBeforeHolds(day, 1970); }
    NextYear(YearOf(day));
  }

  /** MonthFromTime, by the day within the year. */
  function MonthOf(leap: bool, dayInYear: int, month: int): (m: int)
    requires 0 <= month < 12 && MonthStart(leap, month) <= dayInYear < MonthStart(leap, 12)
    ensures 0 <= m < 12 && MonthStart(leap, m) <= dayInYear < MonthStart(leap, m + 1)
    decreases 12 - month
  {
    if dayInYear < MonthStart(leap, month + 1) then month else MonthOf(leap, dayInYear, month + 1)
  }

  lemma MakeDayInYear(year: int, month: int, day: int)
    requires 0 <= month < 12
    ensures MakeDay(year, month, day) == DayFromYear(year) + MonthStart(Leap(year), month) + day - 1
  {
    assert month / 12 == 0 && month % 12 == month;
  }

  /** The date of a day of year `y`. */
  function DateInYear(day: int, y: int): Date
    requires LiesIn(day, y)
  {
    var m := MonthOf(Leap(y), day - DayFromYear(y), 0);
    Date(y, m, day - DayFromYear(y) - MonthStart(Leap(y), m) + 1)
  }

  /** The date of a day number. */
  function DateOf(day: int): Date {
    YearOfHolds(day);
    DateInYear(day, YearOf(day))
  }

  lemma DateInYearIsReal(day: int, y: int)
    requires LiesIn(day, y)
    ensures DateInYear(day, y).Real()
    ensures MakeDay(DateInYear(day, y).year, DateInYear(day, y).month, DateInYear(day, y).day) == day
  {
    MakeDayInYear(y, DateInYear(day, y).month, DateInYear(day, y).day);
  }

  lemma DateOfIsReal(day: int)
    ensures DateOf(day).Real()
    ensures MakeDay(DateOf(day).year, DateOf(day).month, DateOf(day).day) == day
  {
    YearOfHolds(day);
    DateInYearIsReal(day, YearOf(day));
  }

  lemma MonthsUpTo(leap: bool, m: int, n: int)
    requires 0 <= m <= n <= 12
    ensures MonthStart(leap, m) <= MonthStart(leap, n)
  {
  }

  lemma DayWithinYear(d: Date)
    requires d.Real()
    ensures DayFromYear(d.year) <= MakeDay(d.year, d.month, d.day) < DayFromYear(d.year + 1)
    ensures MonthStart(Leap(d.year), d.month) <= MakeDay(d.year, d.month, d.day) - DayFromYear(d.year)
              < MonthStart(Leap(d.year), d.month + 1)
  {
    MakeDayInYear(d.year, d.month, d.day);
    MonthsUpTo(Leap(d.year), d.month + 1, 12);
    NextYear(d.year);
  }

  lemma EarlierYearEarlierDay(a: Date, b: Date)
    requires a.Real() && b.Real() && a.year < b.year
    ensures MakeDay(a.year, a.month, a.day) < MakeDay(b.year, b.month, b.day)
  {
    DayWithinYear(a);
    DayWithinYear(b);
    YearsAdvance(a.year + 1, b.year);
  }

  lemma EarlierInYearEarlierDay(a: Date, b: Date)
    requires a.Real() && b.Real() && a.year == b.year && a.Before(b)
    ensures MakeDay(a.year, a.month, a.day) < MakeDay(b.year, b.month, b.day)
  {
    MakeDayInYear(a.year, a.month, a.day);
    MakeDayInYear(b.year, b.month, b.day);
    if a.month < b.month {
      MonthsUpTo(Leap(a.year), a.month + 1, b.month);
    }
  }

  lemma EarlierDateEarlierDay(a: Date, b: Date)
    requires a.Real() && b.Real() && a.Before(b)
    ensures MakeDay(a.year, a.month, a.day) < MakeDay(b.year, b.month, b.day)
  {
    if a.year < b.year {
      EarlierYearEarlierDay(a, b);
    } else {
      EarlierInYearEarlierDay(a, b);
    }
  }

  /** Calendar order is day-number order. */
  lemma DatesAscend(a: Date, b: Date)
    requires a.Real() && b.Real()
    ensures a.Before(b) <==> MakeDay(a.year, a.month, a.day) < MakeDay(b.year, b.month, b.day)
  {
    if a.Before(b) {
      EarlierDateEarlierDay(a, b);
    } else if b.Before(a) {
      EarlierDateEarlierDay(b, a);
    } else {
      assert a == b;
    }
  }

  /** A real date is the date of its own day. */
  lemma DateOfMakeDay(d: Date)
    requires d.Real()
    ensures DateOf(MakeDay(d.year, d.month, d.day)) == d
  {
    var e := DateOf(MakeDay(d.year, d.month, d.day));
    DateOfIsReal(MakeDay(d.year, d.month, d.day));
    DatesAscend(d, e);
    DatesAscend(e, d);
  }

  // ---------------------------------------------------------------- Date.UTC and Dhaka time

  datatype Parts = Parts(year: int, monthIndex: int, day: int, hour: int, minute: int, second: int) {
    function TimeOfDay(): int {
      hour * 3600 + minute * 60 + second
    }

    function DateOnly(): Date {
      Date(year, monthIndex, day)
    }
  }

  /** `Date.UTC`: a year from 0 to 99 is taken to mean 1900 to 1999, and everything rolls over. */
  function DateUTC(p: Parts): int {
    MakeDay(if 0 <= p.year <= 99 then 1900 + p.year else p.year, p.monthIndex, p.day) * MS_PER_DAY
    + p.TimeOfDay() * 1000
  }

  /** Dhaka wall-clock components to epoch seconds; nothing when `Date.UTC` had to roll over to another date. */
  function DhakaTimeToEpochSeconds(p: Parts): Option<int> {
    var asUtc := DateUTC(p);
    var date := DateOf(asUtc / MS_PER_DAY);
    if date.year != p.year || date.month != p.monthIndex || date.day != p.day then None
    else Some((asUtc - DHAKA_UTC_OFFSET_MINUTES * 60_000) / 1000)
  }

  lemma DayOfUtc(p: Parts)
    requires p.TimeOfDay() >= 0
    ensures var y := if 0 <= p.year <= 99 then 1900 + p.year else p.year;
            DateUTC(p) / MS_PER_DAY == MakeDay(y, p.monthIndex, p.day) + p.TimeOfDay() / SECONDS_PER_DAY
  {
  }

  lemma TwoDigitYearsMoveForward(d: Date)
    requires d.Real() && 0 <= d.year <= 99
    ensures MakeDay(1900 + d.year, d.month, d.day) > MakeDay(d.year, d.month, d.day)
  {
  }

  lemma RealDateOfItsDay(d: Date, day: int)
    requires DateOf(day) == d
    ensures d.Real() && MakeDay(d.year, d.month, d.day) == day
  {
    DateOfIsReal(day);
  }

  lemma AcceptedMeansReal(p: Parts)
    requires p.year >= 0 && p.TimeOfDay() >= 0
    requires DateOf(DateUTC(p) / MS_PER_DAY) == p.DateOnly()
    ensures p.year >= 100 && p.DateOnly().Real() && p.TimeOfDay() < SECONDS_PER_DAY
  {
    DayOfUtc(p);
    RealDateOfItsDay(p.DateOnly(), DateUTC(p) / MS_PER_DAY);
    if p.year <= 99 {
      TwoDigitYearsMoveForward(p.DateOnly());
    }
  }

  lemma UtcDayOfRealParts(p: Parts)
    requires p.year >= 100 && 0 <= p.TimeOfDay() < SECONDS_PER_DAY
    ensures DateUTC(p) / MS_PER_DAY == MakeDay(p.year, p.monthIndex, p.day)
  {
  }

  lemma RealIsAccepted(p: Parts)
    requires p.year >= 100 && p.DateOnly().Real() && 0 <= p.TimeOfDay() < SECONDS_PER_DAY
    ensures DateOf(DateUTC(p) / MS_PER_DAY) == p.DateOnly()
  {
    UtcDayOfRealParts(p);
    DateOfMakeDay(p.DateOnly());
  }

  lemma EpochOf(day: int, time: int)
    ensures (day * MS_PER_DAY + time * 1000 - DHAKA_UTC_OFFSET_MINUTES * 60_000) / 1000
         == day * SECONDS_PER_DAY + time - 21_600
  {
  }

  /** A real date from the year 100 on, with a time inside the day, is read as the second it names. */
  lemma RealIsRead(p: Parts, epochSeconds: int)
    requires p.year >= 100 && p.DateOnly().Real() && 0 <= p.TimeOfDay() < SECONDS_PER_DAY
    requires MakeDay(p.year, p.monthIndex, p.day) * SECONDS_PER_DAY + p.TimeOfDay() - 21_600 == epochSeconds
    ensures DhakaTimeToEpochSeconds(p) == Some(epochSeconds)
  {
    RealIsAccepted(p);
    UtcOfItsDay(p);
    AcceptedIsRead(p, MakeDay(p.year, p.monthIndex, p.day), epochSeconds);
  }

  lemma UtcOfItsDay(p: Parts)
    requires p.year >= 100
    ensures DateUTC(p) == MakeDay(p.year, p.monthIndex, p.day) * MS_PER_DAY + p.TimeOfDay() * 1000
  {
  }

  lemma AcceptedIsRead(p: Parts, day: int, epochSeconds: int)
    requires DateUTC(p) == day * MS_PER_DAY + p.TimeOfDay() * 1000
    requires DateOf(DateUTC(p) / MS_PER_DAY) == p.DateOnly()
    requires day * SECONDS_PER_DAY + p.TimeOfDay() - 21_600 == epochSeconds
    ensures DhakaTimeToEpochSeconds(p) == Some(epochSeconds)
  {
    EpochOf(day, p.TimeOfDay());
  }

  /** What is accepted, exactly: a real date from the year 100 on, with a time of day that does not reach midnight.
      A minute or an hour beyond its clock range is accepted as long as it stays inside the day. */
  lemma AcceptedExactly(p: Parts)
    requires p.year >= 0 && p.TimeOfDay() >= 0
    ensures DhakaTimeToEpochSeconds(p).Some? <==>
              p.year >= 100 && p.DateOnly().Real() && p.TimeOfDay() < SECONDS_PER_DAY
    ensures DhakaTimeToEpochSeconds(p).Some? ==>
              DhakaTimeToEpochSeconds(p).value
                == MakeDay(p.year, p.monthIndex, p.day) * SECONDS_PER_DAY + p.TimeOfDay() - 21_600
  {
    if DateOf(DateUTC(p) / MS_PER_DAY) == p.DateOnly() {
      AcceptedMeansReal(p);
      RealIsRead(p, MakeDay(p.year, p.monthIndex, p.day) * SECONDS_PER_DAY + p.TimeOfDay() - 21_600);
    } else if p.year >= 100 && p.DateOnly().Real() && p.TimeOfDay() < SECONDS_PER_DAY {
      RealIsAccepted(p);
    }
  }

  lemma RealAcceptedOrNot(p: Parts)
    requires p.year >= 100 && p.DateOnly().Real() && p.TimeOfDay() >= 0
    ensures DhakaTimeToEpochSeconds(p)
         == if p.TimeOfDay() < SECONDS_PER_DAY
            then Some(MakeDay(p.year, p.monthIndex, p.day) * SECONDS_PER_DAY + p.TimeOfDay() - 21_600) else None
  {
    if p.TimeOfDay() < SECONDS_PER_DAY {
      RealIsRead(p, MakeDay(p.year, p.monthIndex, p.day) * SECONDS_PER_DAY + p.TimeOfDay() - 21_600);
    } else {
      AcceptedExactly(p);
    }
  }

  /** Accepted stamps are ordered as their dates and times of day are. */
  lemma AcceptedStampsAscend(p: Parts, q: Parts)
    requires p.year >= 0 && p.TimeOfDay() >= 0 && q.year >= 0 && q.TimeOfDay() >= 0
    ensures var a, b := DhakaTimeToEpochSeconds(p), DhakaTimeToEpochSeconds(q);
            a.Some? && b.Some? ==>
              (a.value < b.value <==>
                 p.DateOnly().Before(q.DateOnly()) || (p.DateOnly() == q.DateOnly() && p.TimeOfDay() < q.TimeOfDay()))
  {
    AcceptedExactly(p);
    AcceptedExactly(q);
    if DhakaTimeToEpochSeconds(p).Some? && DhakaTimeToEpochSeconds(q).Some? {
      DatesAscend(p.DateOnly(), q.DateOnly());
      DatesAscend(q.DateOnly(), p.DateOnly());
    }
  }

  /** A date with a second of its day, taken apart into hours, minutes and seconds. */
  function AtSecond(date: Date, t: int): (p: Parts)
    requires 0 <= t < SECONDS_PER_DAY
    ensures p.DateOnly() == date && p.TimeOfDay() == t
    ensures 0 <= p.hour < 24 && 0 <= p.minute < 60 && 0 <= p.second < 60
  {
    Parts(date.year, date.month, date.day, t / 3600, t / 60 % 60, t % 60)
  }

  /** The Dhaka wall clock of an instant. */
  function PartsOf(epochSeconds: int): (p: Parts)
    ensures p.DateOnly().Real()
    ensures 0 <= p.hour < 24 && 0 <= p.minute < 60 && 0 <= p.second < 60
    ensures 0 <= p.TimeOfDay() < SECONDS_PER_DAY
    ensures MakeDay(p.year, p.monthIndex, p.day) * SECONDS_PER_DAY + p.TimeOfDay() - 21_600 == epochSeconds
  {
    var local := epochSeconds + 21_600;
    DateOfIsReal(local / SECONDS_PER_DAY);
    AtSecond(DateOf(local / SECONDS_PER_DAY), local % SECONDS_PER_DAY)
  }

  /** Reading an instant's wall clock back gives the instant, from the year 100 on. */
  lemma PartsRoundTrip(epochSeconds: int)
    requires PartsOf(epochSeconds).year >= 100
    ensures DhakaTimeToEpochSeconds(PartsOf(epochSeconds)) == Some(epochSeconds)
  {
    RealIsRead(PartsOf(epochSeconds), epochSeconds);
  }
}
