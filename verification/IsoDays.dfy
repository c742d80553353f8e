/** Dhaka days as `YYYY-MM-DD` strings, which the sweep shifts by days and compares as strings. */
module IsoDays {
  import opened Prelude
  import opened PortalText
  import opened CivilTime

  /** The days from 0000-01-01 to 9999-12-31. */
  predicate FourDigit(day: int) {
    -719_528 <= day <= 2_932_896
  }

  /** They are the days whose `toISOString` has a four-digit year. */
  lemma FourDigitYears(day: int)
    ensures FourDigit(day) <==> 0 <= DateOf(day).year <= 9999
  {
    DateOfIsReal(day);
    DayWithinYear(DateOf(day));
    FourDigitsByYear(day, DateOf(day).year);
  }

  lemma FourDigitsByYear(day: int, y: int)
    requires DayFromYear(y) <= day < DayFromYear(y + 1)
    ensures FourDigit(day) <==> 0 <= y <= 9999
  {
  }

  function IsoDate(d: Date): string
    requires 0 <= d.year <= 9999 && 0 <= d.month < 12 && 0 <= d.day < 100
  {
    Pad4(d.year) + ("-" + (Pad2(d.month + 1) + ("-" + Pad2(d.day))))
  }

  lemma RealDayIsTwoDigits(d: Date)
    requires d.Real()
    ensures 1 <= d.day <= 31
  {
  }

  /** A day number as the sweep writes it. */
  function Iso(day: int): string
    requires FourDigit(day)
  {
    FourDigitYears(day);
    DateOfIsReal(day);
    RealDayIsTwoDigits(DateOf(day));
    IsoDate(DateOf(day))
  }

  /** `-\d{2}`. */
  function ReadDashPair(s: string): Option<Read<nat>> {
    var s1 :- ReadChar(s, '-');
    ReadNumber(s1, 2, 2)
  }

  function ReadIso(s: string): Option<Date> {
    var year :- ReadNumber(s, 4, 4);
    var month :- ReadDashPair(year.rest);
    var day :- ReadDashPair(month.rest);
    if day.rest == [] then Some(Date(year.value, month.value - 1, day.value)) else None
  }

  lemma DashPairReadsBack(n: int, rest: string)
    requires 0 <= n < 100
    ensures ReadDashPair("-" + (Pad2(n) + rest)) == Some(Read<nat>.Read(n, rest))
  {
  }

  lemma IsoReadsBack(d: Date)
    requires 0 <= d.year <= 9999 && 0 <= d.month < 12 && 0 <= d.day < 100
    ensures ReadIso(IsoDate(d)) == Some(d)
  {
    ReadPad4(d.year, "-" + (Pad2(d.month + 1) + ("-" + Pad2(d.day))));
    DashPairReadsBack(d.month + 1, "-" + Pad2(d.day));
    DashPairReadsBack(d.day, []);
    assert Pad2(d.day) + [] == Pad2(d.day);
  }

  /** A date shifted back: only the day of the month is moved, and it rolls over. Years beyond four digits, which
      would be written with a sign, are not modelled. */
  function Shifted(d: Date, count: int): Option<string> {
    var day := MakeDay(d.year, d.month, d.day - count);
    if FourDigit(day) then Some(Iso(day)) else None
  }

  function DaysBefore(text: string, count: int): Option<string> {
    var d := ReadIso(text);
    if d.None? then None else Shifted(d.value, count)
  }

  lemma ShiftedByDays(d: Date, count: int)
    ensures MakeDay(d.year, d.month, d.day - count) == MakeDay(d.year, d.month, d.day) - count
  {
  }

  /** The string the sweep writes for a day names that day. */
  lemma IsoNamesItsDay(day: int)
    requires FourDigit(day)
    ensures ReadIso(Iso(day)) == Some(DateOf(day))
  {
    FourDigitYears(day);
    DateOfIsReal(day);
    RealDayIsTwoDigits(DateOf(day));
    IsoReadsBack(DateOf(day));
  }

  lemma ShiftedTo(d: Date, count: int, day: int)
    requires MakeDay(d.year, d.month, d.day - count) == day && FourDigit(day)
    ensures Shifted(d, count) == Some(Iso(day))
  {
  }

  lemma ShiftNamesTheEarlierDay(d: Date, count: int, day: int)
    requires MakeDay(d.year, d.month, d.day) == day + count && FourDigit(day)
    ensures Shifted(d, count) == Some(Iso(day))
  {
    assert MakeDay(d.year, d.month, d.day - count) == day by { ShiftedByDays(d, count); }
    ShiftedTo(d, count, day);
  }

  lemma DaysBeforeIsShift(text: string, d: Date, count: int, shifted: Option<string>)
    requires ReadIso(text) == Some(d) && Shifted(d, count) == shifted
    ensures DaysBefore(text, count) == shifted
  {
  }

  lemma NamedDayShifts(d: Date, count: int, day: int)
    requires d == DateOf(day + count) && FourDigit(day)
    ensures Shifted(d, count) == Some(Iso(day))
  {
    RealDateOfItsDay(d, day + count);
    ShiftNamesTheEarlierDay(d, count, day);
  }

  /** Shifting the string shifts the day it names, across months and years. */
  lemma DaysBeforeShifts(text: string, day: int, count: int)
    requires FourDigit(day) && ReadIso(text) == Some(DateOf(day + count))
    ensures DaysBefore(text, count) == Some(Iso(day))
  {
    NamedDayShifts(DateOf(day + count), count, day);
    DaysBeforeIsShift(text, DateOf(day + count), count, Some(Iso(day)));
  }

  // ---------------------------------------------------------------- string order

  /** JavaScript's `<` on strings: by code unit, a proper prefix first. */
  predicate StringLess(a: string, b: string) {
    b != [] && (a == [] || a[0] < b[0] || (a[0] == b[0] && StringLess(a[1..], b[1..])))
  }

  lemma {:induction false} StringLessByHeads(a: string, b: string, x: string, y: string)
    requires |a| == |b|
    ensures StringLess(a + x, b + y) <==> StringLess(a, b) || (a == b && StringLess(x, y))
  {
    if a == [] {
      assert a + x == x && b + y == y;
    } else {
      assert (a + x)[1..] == a[1..] + x && (b + y)[1..] == b[1..] + y;
      StringLessByHeads(a[1..], b[1..], x, y);
      assert a == [a[0]] + a[1..] && b == [b[0]] + b[1..];
    }
  }

  lemma DigitsAscend(m: int, n: int)
    requires 0 <= m < 10 && 0 <= n < 10
    ensures StringLess([Digit(m)], [Digit(n)]) <==> m < n
    ensures [Digit(m)] == [Digit(n)] <==> m == n
  {
  }

  lemma PairsAscend(m: int, n: int)
    requires 0 <= m < 100 && 0 <= n < 100
    ensures StringLess(Pad2(m), Pad2(n)) <==> m < n
    ensures Pad2(m) == Pad2(n) <==> m == n
  {
    DigitsAscend(m / 10, n / 10);
    DigitsAscend(m % 10, n % 10);
    assert Pad2(m) == [Digit(m / 10)] + [Digit(m % 10)] && Pad2(n) == [Digit(n / 10)] + [Digit(n % 10)];
    StringLessByHeads([Digit(m / 10)], [Digit(n / 10)], [Digit(m % 10)], [Digit(n % 10)]);
    assert Pad2(m) == Pad2(n) ==> Pad2(m)[0] == Pad2(n)[0] && Pad2(m)[1] == Pad2(n)[1];
  }

  lemma QuadsAscend(m: int, n: int)
    requires 0 <= m < 10_000 && 0 <= n < 10_000
    ensures StringLess(Pad4(m), Pad4(n)) <==> m < n
    ensures Pad4(m) == Pad4(n) <==> m == n
  {
    PairsAscend(m / 100, n / 100);
    PairsAscend(m % 100, n % 100);
    StringLessByHeads(Pad2(m / 100), Pad2(n / 100), Pad2(m % 100), Pad2(n % 100));
    assert Pad4(m)[..2] == Pad2(m / 100) && Pad4(m)[2..] == Pad2(m % 100);
    assert Pad4(n)[..2] == Pad2(n / 100) && Pad4(n)[2..] == Pad2(n % 100);
  }

  lemma {:induction false} SameHeadsLess(s: string, x: string, y: string)
    ensures StringLess(s + x, s + y) <==> StringLess(x, y)
  {
    StringLessByHeads(s, s, x, y);
    Irreflexive(s);
  }

  lemma {:induction false} Irreflexive(s: string)
    ensures !StringLess(s, s)
  {
    if s != [] {
      Irreflexive(s[1..]);
    }
  }

  lemma MonthDaysAscend(m: int, d: int, n: int, e: int)
    requires 0 <= m < 100 && 0 <= d < 100 && 0 <= n < 100 && 0 <= e < 100
    ensures StringLess(Pad2(m) + ("-" + Pad2(d)), Pad2(n) + ("-" + Pad2(e))) <==> m < n || (m == n && d < e)
  {
    PairsAscend(m, n);
    PairsAscend(d, e);
    StringLessByHeads(Pad2(m), Pad2(n), "-" + Pad2(d), "-" + Pad2(e));
    SameHeadsLess("-", Pad2(d), Pad2(e));
  }

  lemma IsoDatesAscend(a: Date, b: Date)
    requires 0 <= a.year <= 9999 && 0 <= a.month < 12 && 0 <= a.day < 100
    requires 0 <= b.year <= 9999 && 0 <= b.month < 12 && 0 <= b.day < 100
    ensures StringLess(IsoDate(a), IsoDate(b)) <==> a.Before(b)
  {
    var x, y := Pad2(a.month + 1) + ("-" + Pad2(a.day)), Pad2(b.month + 1) + ("-" + Pad2(b.day));
    QuadsAscend(a.year, b.year);
    MonthDaysAscend(a.month + 1, a.day, b.month + 1, b.day);
    StringLessByHeads(Pad4(a.year), Pad4(b.year), "-" + x, "-" + y);
    SameHeadsLess("-", x, y);
  }

  lemma IsoTextsAscend(a: Date, b: Date, s: string, t: string)
    requires a.Real() && 0 <= a.year <= 9999 && s == IsoDate(a)
    requires b.Real() && 0 <= b.year <= 9999 && t == IsoDate(b)
    ensures StringLess(s, t) <==> MakeDay(a.year, a.month, a.day) < MakeDay(b.year, b.month, b.day)
  {
    RealDayIsTwoDigits(a);
    RealDayIsTwoDigits(b);
    IsoDatesAscend(a, b);
    DatesAscend(a, b);
  }

  /** Comparing the strings is comparing the days. */
  lemma IsoDaysAscend(m: int, n: int)
    requires FourDigit(m) && FourDigit(n)
    ensures StringLess(Iso(m), Iso(n)) <==> m < n
  {
    FourDigitYears(m);
    FourDigitYears(n);
    DateOfIsReal(m);
    DateOfIsReal(n);
    IsoTextsAscend(DateOf(m), DateOf(n), Iso(m), Iso(n));
  }
}
