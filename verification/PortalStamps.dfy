/** The portal's three date formats, over one civil clock. */
module PortalStamps {
  import opened Prelude
  import opened PortalText
  import opened CivilTime

  const MONTHS := ["JAN", "FEB", "MAR", "APR", "MAY", "JUN", "JUL", "AUG", "SEP", "OCT", "NOV", "DEC"]

  const MONTH_NAMES := ["January", "February", "March", "April", "May", "June", "July", "August", "September",
                        "October", "November", "December"]

  /** The month an upper-case abbreviation names, searched for from `m`. */
  function MonthIndex(abbreviation: string, m: nat): Option<nat>
    requires m <= 12
    decreases 12 - m
  {
    if m == 12 then None else if MONTHS[m] == abbreviation then Some(m) else MonthIndex(abbreviation, m + 1)
  }

  function To24Hour(hour: nat, beforeNoon: bool): Option<nat> {
    if hour < 1 || hour > 12 then None
    else if beforeNoon then Some(if hour == 12 then 0 else hour)
    else Some(if hour == 12 then 12 else hour + 12)
  }

  // ---------------------------------------------------------------- reading

  datatype Clock = Clock(hour: nat, minute: nat, second: nat)

  /** `(?:\s+(\d{1,2}):(\d{2})(?::(\d{2}))?)?$`: midnight when absent. */
  function ReadOptionalClock(s: string): Option<Clock> {
    if s == [] then Some(Clock(0, 0, 0))
    else
      var s1 :- ReadSpaces(s);
      var hour :- ReadNumber(s1, 1, 2);
      var s2 :- ReadChar(hour.rest, ':');
      var minute :- ReadNumber(s2, 2, 2);
      if minute.rest == [] then Some(Clock(hour.value, minute.value, 0))
      else
        var s3 :- ReadChar(minute.rest, ':');
        var second :- ReadNumber(s3, 2, 2);
        if second.rest == [] then Some(Clock(hour.value, minute.value, second.value)) else None
  }

  /** A day with its month as a number, and the text after it. */
  datatype DayNumbers = DayNumbers(day: nat, month: nat, year: nat, rest: string)

  /** `^(\d{1,2})\/(\d{1,2})\/(\d{4})`. */
  function ReadSlashDay(s: string): Option<DayNumbers> {
    var day :- ReadNumber(s, 1, 2);
    var s1 :- ReadChar(day.rest, '/');
    var month :- ReadNumber(s1, 1, 2);
    var s2 :- ReadChar(month.rest, '/');
    var year :- ReadNumber(s2, 4, 4);
    Some(DayNumbers(day.value, month.value, year.value, year.rest))
  }

  /** `dd/MM/yyyy HH:mm:ss`, the time optional. */
  function ParseSlashDateTime(raw: string): Option<int> {
    var d :- ReadSlashDay(Trim(ToAsciiDigits(raw)));
    var clock :- ReadOptionalClock(d.rest);
    DhakaTimeToEpochSeconds(Parts(d.year, d.month - 1, d.day, clock.hour, clock.minute, clock.second))
  }

  /** A day with its month still spelled out, and the text after it. */
  datatype DayText = DayText(day: nat, month: string, year: nat, rest: string)

  /** A clock reading before or after noon. */
  datatype Clock12 = Clock12(clock: Clock, beforeNoon: bool)

  /** `(?::(\d{2}))?`. */
  function ReadOptionalSecond(s: string): Read<nat> {
    match ReadChar(s, ':')
    case None => Read(0, s)
    case Some(rest) =>
      match ReadNumber(rest, 2, 2)
      case None => Read(0, s)
      case Some(second) => second
  }

  /** `\s+(\d{1,2}):(\d{2})\s*(AM|PM)$`, with `(?::(\d{2}))?` after the minute if seconds are allowed. */
  function ReadClock12(s: string, seconds: bool): Option<Clock12> {
    var s1 :- ReadSpaces(s);
    var hour :- ReadNumber(s1, 1, 2);
    var s2 :- ReadChar(hour.rest, ':');
    var minute :- ReadNumber(s2, 2, 2);
    var second := if seconds then ReadOptionalSecond(minute.rest) else Read(0, minute.rest);
    var beforeNoon :- ReadMeridiem(SkipSpaces(second.rest));
    Some(Clock12(Clock(hour.value, minute.value, second.value), beforeNoon))
  }

  /** The month by its first three letters, the hour by its meridiem, and the civil clock. */
  function FromText(d: DayText, c: Clock12): Option<int> {
    var month :- MonthIndex(ToUpperCase(if |d.month| >= 3 then d.month[..3] else d.month), 0);
    var hour :- To24Hour(c.clock.hour, c.beforeNoon);
    DhakaTimeToEpochSeconds(Parts(d.year, month, d.day, hour, c.clock.minute, c.clock.second))
  }

  /** `^(\d{1,2})-([A-Za-z]{3})-(\d{4})`. */
  function ReadRechargeDay(s: string): Option<DayText> {
    var day :- ReadNumber(s, 1, 2);
    var s1 :- ReadChar(day.rest, '-');
    if |s1| < 3 || !IsLetter(s1[0]) || !IsLetter(s1[1]) || !IsLetter(s1[2]) then None
    else
      var s2 :- ReadChar(s1[3..], '-');
      var year :- ReadNumber(s2, 4, 4);
      Some(DayText(day.value, s1[..3], year.value, year.rest))
  }

  /** `dd-MMM-yyyy hh:mm AM|PM`. */
  function ParseRechargeDate(raw: string): Option<int> {
    var day :- ReadRechargeDay(Trim(ToAsciiDigits(raw)));
    var clock :- ReadClock12(day.rest, false);
    FromText(day, clock)
  }

  /** Everything from the first ASCII digit on. */
  function FromFirstDigit(s: string): string {
    if s != [] && !IsDigit(s[0]) then FromFirstDigit(s[1..]) else s
  }

  /** `([A-Za-z]+)\s+(\d{4})`, after a day. */
  function ReadNameAndYear(s: string, day: nat): Option<DayText> {
    var name := Letters(s);
    if name == [] then None
    else
      var s1 :- ReadSpaces(s[|name|..]);
      var year :- ReadNumber(s1, 4, 4);
      Some(DayText(day, name, year.value, year.rest))
  }

  /** `^(\d{1,2})\s+([A-Za-z]+)\s+(\d{4})`. */
  function ReadBalanceDay(s: string): Option<DayText> {
    var day :- ReadNumber(s, 1, 2);
    var s1 :- ReadSpaces(day.rest);
    ReadNameAndYear(s1, day.value)
  }

  /** `d MMMM yyyy h:mm:ss AM|PM` after any prefix without a digit. */
  function ParseBalanceStamp(raw: string): Option<int> {
    var day :- ReadBalanceDay(Trim(FromFirstDigit(ToAsciiDigits(raw))));
    var clock :- ReadClock12(day.rest, true);
    FromText(day, clock)
  }

  /** `([^)]*)\)\s*$` at the front of the text: what stands before the first closing parenthesis, when only white
      space follows it. */
  function GroupToEnd(s: string): Option<string> {
    if s == [] then None
    else if s[0] == ')' then (if SkipSpaces(s[1..]) == [] then Some([]) else None)
    else
      var rest :- GroupToEnd(s[1..]);
      Some([s[0]] + rest)
  }

  /** The leftmost opening parenthesis whose group closes at the end of the label. */
  function LastGroup(text: string): Option<string> {
    if text == [] then None
    else if text[0] == '(' && GroupToEnd(text[1..]).Some? then GroupToEnd(text[1..])
    else LastGroup(text[1..])
  }

  /** The stamp a balance label carries, if it carries one that can be read. */
  function ParseBalanceAsOf(text: string): Option<int> {
    var stamp :- LastGroup(text);
    ParseBalanceStamp(stamp)
  }

  // ---------------------------------------------------------------- writing

  function Hour12(hour: int): int {
    if hour % 12 == 0 then 12 else hour % 12
  }

  function Meridiem(hour: int): string {
    if hour < 12 then "AM" else "PM"
  }

  ghost predicate OnTheClock(p: Parts) {
    && 100 <= p.year <= 9999 && p.DateOnly().Real()
    && 0 <= p.hour < 24 && 0 <= p.minute < 60 && 0 <= p.second < 60
  }

  /** Two digits are room for more than a clock shows. */
  ghost predicate FitsTheSlashForm(p: Parts) {
    && 100 <= p.year <= 9999 && p.DateOnly().Real()
    && 0 <= p.hour < 100 && 0 <= p.minute < 100 && 0 <= p.second < 100
  }

  function Clock24Text(p: Parts): string
    requires FitsTheSlashForm(p)
  {
    Pad2(p.hour) + (":" + (Pad2(p.minute) + (":" + Pad2(p.second))))
  }

  function Slash(p: Parts): string
    requires FitsTheSlashForm(p)
  {
    Pad2(p.day) + ("/" + (Pad2(p.monthIndex + 1) + ("/" + (Pad4(p.year) + (" " + Clock24Text(p))))))
  }

  function Clock12Text(p: Parts, padded: bool, seconds: bool): string
    requires OnTheClock(p)
  {
    Short(Hour12(p.hour), padded)
    + (":" + (Pad2(p.minute) + ((if seconds then ":" + Pad2(p.second) else "") + (" " + Meridiem(p.hour)))))
  }

  function Balance(p: Parts, padded: bool): string
    requires OnTheClock(p)
  {
    Short(p.day, padded)
    + (" " + (MONTH_NAMES[p.monthIndex] + (" " + (Pad4(p.year) + (" " + Clock12Text(p, padded, true))))))
  }

  function Recharge(p: Parts, padded: bool): string
    requires OnTheClock(p)
  {
    Short(p.day, padded)
    + ("-" + (MONTH_NAMES[p.monthIndex][..3] + ("-" + (Pad4(p.year) + (" " + Clock12Text(p, padded, false))))))
  }

  // ---------------------------------------------------------------- the pieces read back

  lemma Clock24ReadsBack(p: Parts)
    requires FitsTheSlashForm(p)
    ensures ReadOptionalClock(" " + Clock24Text(p)) == Some(Clock(p.hour, p.minute, p.second))
  {
    var tail := Pad2(p.minute) + (":" + Pad2(p.second));
    ReadOneSpace(Clock24Text(p));
    ReadPad2(p.hour, ":" + tail, 1);
    ReadCharHead(':', tail);
    ReadPad2(p.minute, ":" + Pad2(p.second), 2);
    ReadCharHead(':', Pad2(p.second));
    ReadPad2(p.second, [], 2);
    assert Pad2(p.second) + [] == Pad2(p.second);
  }

  lemma MeridiemReadsBack(hour: int)
    requires 0 <= hour < 24
    ensures ReadMeridiem(SkipSpaces(" " + Meridiem(hour))) == Some(hour < 12)
    ensures 1 <= Hour12(hour) <= 12 && To24Hour(Hour12(hour), hour < 12) == Some(hour)
  {
  }

  lemma SecondReadsBack(p: Parts, seconds: bool)
    requires OnTheClock(p)
    ensures var end := " " + Meridiem(p.hour);
            var read := if seconds then ReadOptionalSecond(":" + Pad2(p.second) + end) else Read(0, "" + end);
            read == Read(if seconds then p.second else 0, end)
  {
    var end := " " + Meridiem(p.hour);
    if seconds {
      ReadCharHead(':', Pad2(p.second) + end);
      ReadPad2(p.second, end, 2);
      assert ":" + Pad2(p.second) + end == ":" + (Pad2(p.second) + end);
    }
  }

  lemma Clock12ReadsBack(p: Parts, padded: bool, seconds: bool)
    requires OnTheClock(p)
    ensures ReadClock12(" " + Clock12Text(p, padded, seconds), seconds)
         == Some(Clock12(Clock(Hour12(p.hour), p.minute, if seconds then p.second else 0), p.hour < 12))
  {
    var end := (if seconds then ":" + Pad2(p.second) else "") + (" " + Meridiem(p.hour));
    MeridiemReadsBack(p.hour);
    ReadOneSpace(Clock12Text(p, padded, seconds));
    ReadShort(Hour12(p.hour), padded, ":" + (Pad2(p.minute) + end));
    ReadCharHead(':', Pad2(p.minute) + end);
    ReadPad2(p.minute, end, 2);
    SecondReadsBack(p, seconds);
  }

  lemma NameShortens(m: nat)
    requires m < 12
    ensures |MONTH_NAMES[m]| >= 3 && ToUpperCase(MONTH_NAMES[m][..3]) == MONTHS[m]
    ensures forall c :: c in MONTH_NAMES[m] ==> IsLetter(c)
  {
  }

  lemma MonthsDiffer(m: nat, n: nat)
    requires m < n < 12
    ensures MONTHS[m] != MONTHS[n]
  {
  }

  lemma {:induction false} MonthReadsBack(m: nat, from: nat)
    requires from <= m < 12
    ensures MonthIndex(MONTHS[m], from) == Some(m)
    decreases m - from
  {
    if from < m {
      MonthsDiffer(from, m);
      MonthReadsBack(m, from + 1);
    }
  }

  lemma TextReadsBack(p: Parts, month: string, rest: string)
    requires OnTheClock(p)
    requires |month| >= 3 && month[..3] == MONTH_NAMES[p.monthIndex][..3]
    ensures FromText(DayText(p.day, month, p.year, rest), Clock12(Clock(Hour12(p.hour), p.minute, p.second), p.hour < 12))
         == DhakaTimeToEpochSeconds(p)
  {
    NameShortens(p.monthIndex);
    MonthReadsBack(p.monthIndex, 0);
    MeridiemReadsBack(p.hour);
  }

  lemma NameAndYearReadBack(name: string, year: int, rest: string, day: nat)
    requires name != [] && (forall c :: c in name ==> IsLetter(c)) && 0 <= year < 10_000
    ensures ReadNameAndYear(name + (" " + (Pad4(year) + rest)), day) == Some(DayText(day, name, year, rest))
  {
    var text := Pad4(year) + rest;
    LettersOf(name, " " + text);
    assert (name + (" " + text))[|name|..] == " " + text;
    ReadOneSpace(text);
    ReadPad4(year, rest);
  }

  lemma BalanceDayReadsBack(p: Parts, padded: bool, rest: string)
    requires OnTheClock(p)
    ensures ReadBalanceDay(Short(p.day, padded) + (" " + (MONTH_NAMES[p.monthIndex] + (" " + (Pad4(p.year) + rest)))))
         == Some(DayText(p.day, MONTH_NAMES[p.monthIndex], p.year, rest))
  {
    var name := MONTH_NAMES[p.monthIndex];
    var text := name + (" " + (Pad4(p.year) + rest));
    NameShortens(p.monthIndex);
    assert name[0] in name && text[0] == name[0];
    ReadShort(p.day, padded, " " + text);
    ReadOneSpace(text);
    NameAndYearReadBack(name, p.year, rest, p.day);
  }

  lemma RechargeDayReadsBack(p: Parts, padded: bool, rest: string)
    requires OnTheClock(p)
    ensures ReadRechargeDay(Short(p.day, padded) + ("-" + (MONTH_NAMES[p.monthIndex][..3] + ("-" + (Pad4(p.year) + rest)))))
         == Some(DayText(p.day, MONTH_NAMES[p.monthIndex][..3], p.year, rest))
  {
    NameShortens(p.monthIndex);
    var name, year := MONTH_NAMES[p.monthIndex][..3], Pad4(p.year) + rest;
    assert forall i :: 0 <= i < 3 ==>
      name[i] == MONTH_NAMES[p.monthIndex][i] && MONTH_NAMES[p.monthIndex][i] in MONTH_NAMES[p.monthIndex];
    ReadShort(p.day, padded, "-" + (name + ("-" + year)));
    ReadCharHead('-', name + ("-" + year));
    assert (name + ("-" + year))[3..] == "-" + year && (name + ("-" + year))[..3] == name;
    ReadCharHead('-', year);
    ReadPad4(p.year, rest);
  }

  // ---------------------------------------------------------------- the round trips

  /** A raw text spells another if it differs from it at most in the script of its digits. */
  ghost predicate Spells(raw: string, text: string) {
    ToAsciiDigits(raw) == text
  }

  lemma EndsInClock(front: string, clock: string)
    requires clock != [] && !IsSpace(clock[|clock| - 1]) && front != [] && IsDigit(front[0])
    ensures Trim(front + clock) == front + clock
  {
  }

  lemma Clock12EndsInLetter(p: Parts, padded: bool, seconds: bool)
    requires OnTheClock(p)
    ensures var c := " " + Clock12Text(p, padded, seconds);
            !IsSpace(c[|c| - 1])
  {
  }

  lemma Associate(a: string, b: string, c: string, d: string, e: string, f: string)
    ensures a + (b + (c + (d + (e + f)))) == (a + b + c + d + e) + f
  {
  }

  lemma SlashIsTrimmed(p: Parts)
    requires FitsTheSlashForm(p)
    ensures Trim(Slash(p)) == Slash(p)
  {
  }

  /** The slash form of an instant, in either script, reads back as the instant. */
  lemma SlashRoundTrip(epoch: int, raw: string)
    requires OnTheClock(PartsOf(epoch)) && Spells(raw, Slash(PartsOf(epoch)))
    ensures ParseSlashDateTime(raw) == Some(epoch)
  {
    var p := PartsOf(epoch);
    SlashIsTrimmed(p);
    SlashReadsBack(p, raw);
    PartsRoundTrip(epoch);
  }

  lemma SlashDayReadsBack(p: Parts, rest: string)
    requires FitsTheSlashForm(p)
    ensures ReadSlashDay(Pad2(p.day) + ("/" + (Pad2(p.monthIndex + 1) + ("/" + (Pad4(p.year) + rest)))))
         == Some(DayNumbers(p.day, p.monthIndex + 1, p.year, rest))
  {
    var year := Pad4(p.year) + rest;
    ReadPad2(p.day, "/" + (Pad2(p.monthIndex + 1) + ("/" + year)), 1);
    ReadCharHead('/', Pad2(p.monthIndex + 1) + ("/" + year));
    ReadPad2(p.monthIndex + 1, "/" + year, 1);
    ReadCharHead('/', year);
    ReadPad4(p.year, rest);
  }

  lemma SlashReadsBack(p: Parts, raw: string)
    requires FitsTheSlashForm(p) && Trim(ToAsciiDigits(raw)) == Slash(p)
    ensures ParseSlashDateTime(raw) == DhakaTimeToEpochSeconds(p)
  {
    SlashDayReadsBack(p, " " + Clock24Text(p));
    Clock24ReadsBack(p);
  }

  /** Whatever two digits stand for hour, minute and second, the slash form of a real date is accepted exactly when they
      come to less than a day, and read as the second they come to. */
  lemma SlashAcceptedExactly(p: Parts, raw: string)
    requires FitsTheSlashForm(p) && Spells(raw, Slash(p))
    ensures ParseSlashDateTime(raw)
         == if p.TimeOfDay() < SECONDS_PER_DAY
            then Some(MakeDay(p.year, p.monthIndex, p.day) * SECONDS_PER_DAY + p.TimeOfDay() - 21_600) else None
  {
    SlashIsTrimmed(p);
    SlashReadsBack(p, raw);
    RealAcceptedOrNot(p);
  }

  lemma NewYearIsReal()
    ensures Date(2026, 0, 1).Real() && MakeDay(2026, 0, 1) == 20_454
  {
  }

  /** A minute of 75 passes for a quarter past the next hour: 1 January 2026 at 10:75:00 is read as the second of 11:15. */
  lemma MinuteSeventyFiveIsAccepted(raw: string, p: Parts)
    requires p == Parts(2026, 0, 1, 10, 75, 0) && FitsTheSlashForm(p) && Spells(raw, Slash(p))
    ensures ParseSlashDateTime(raw) == Some(1_767_244_500)
  {
    NewYearIsReal();
    SlashAcceptedExactly(p, raw);
  }

  /** The recharge form, which carries no seconds, reads back at whole minutes. */
  lemma RechargeRoundTrip(epoch: int, padded: bool, raw: string)
    requires OnTheClock(PartsOf(epoch)) && PartsOf(epoch).second == 0
    requires Spells(raw, Recharge(PartsOf(epoch), padded))
    ensures ParseRechargeDate(raw) == Some(epoch)
  {
    var p := PartsOf(epoch);
    RechargeIsTrimmed(p, padded);
    RechargeReadsBack(p, padded, raw);
    PartsRoundTrip(epoch);
  }

  lemma RechargeIsTrimmed(p: Parts, padded: bool)
    requires OnTheClock(p)
    ensures Trim(Recharge(p, padded)) == Recharge(p, padded)
  {
    var clock := " " + Clock12Text(p, padded, false);
    var name := MONTH_NAMES[p.monthIndex][..3];
    Associate(Short(p.day, padded), "-", name, "-", Pad4(p.year), clock);
    Clock12EndsInLetter(p, padded, false);
    EndsInClock(Short(p.day, padded) + "-" + name + "-" + Pad4(p.year), clock);
  }

  lemma RechargeReadsBack(p: Parts, padded: bool, raw: string)
    requires OnTheClock(p) && p.second == 0 && Trim(ToAsciiDigits(raw)) == Recharge(p, padded)
    ensures ParseRechargeDate(raw) == DhakaTimeToEpochSeconds(p)
  {
    var clock := " " + Clock12Text(p, padded, false);
    NameShortens(p.monthIndex);
    RechargeDayReadsBack(p, padded, clock);
    Clock12ReadsBack(p, padded, false);
    TextReadsBack(p, MONTH_NAMES[p.monthIndex][..3], clock);
  }

  lemma {:induction false} PrefixIsSkipped(prefix: string, s: string)
    requires forall c :: c in prefix ==> !IsDigit(c)
    requires s != [] && IsDigit(s[0])
    ensures FromFirstDigit(prefix + s) == s
  {
    if prefix == [] {
      assert prefix + s == s;
    } else {
      assert prefix[0] in prefix && forall c :: c in prefix[1..] ==> c in prefix;
      assert (prefix + s)[1..] == prefix[1..] + s;
      PrefixIsSkipped(prefix[1..], s);
    }
  }

  lemma BalanceIsTrimmed(p: Parts, padded: bool, spaces: string)
    requires OnTheClock(p) && forall c :: c in spaces ==> IsSpace(c)
    ensures Balance(p, padded) != [] && IsDigit(Balance(p, padded)[0])
    ensures Trim(Balance(p, padded) + spaces) == Balance(p, padded)
  {
    var clock := " " + Clock12Text(p, padded, true);
    var front := Short(p.day, padded) + " " + MONTH_NAMES[p.monthIndex] + " " + Pad4(p.year);
    Associate(Short(p.day, padded), " ", MONTH_NAMES[p.monthIndex], " ", Pad4(p.year), clock);
    Clock12EndsInLetter(p, padded, true);
    TrimmedBetween(front, clock, spaces);
  }

  lemma TrimmedBetween(front: string, clock: string, spaces: string)
    requires front != [] && IsDigit(front[0]) && clock != [] && !IsSpace(clock[|clock| - 1])
    requires forall c :: c in spaces ==> IsSpace(c)
    ensures (front + clock)[0] == front[0] && Trim(front + clock + spaces) == front + clock
  {
    var text := front + clock;
    assert text[0] == front[0] && text[|text| - 1] == clock[|clock| - 1];
    TrimEndDropsSpaces(text, spaces);
    assert (text + spaces)[0] == text[0];
  }

  /** The balance form reads back whatever label without digits stands before it and whatever space after it. */
  lemma BalanceRoundTrip(epoch: int, padded: bool, prefix: string, spaces: string, raw: string)
    requires OnTheClock(PartsOf(epoch))
    requires (forall c :: c in prefix ==> !IsDigit(c)) && forall c :: c in spaces ==> IsSpace(c)
    requires Spells(raw, prefix + (Balance(PartsOf(epoch), padded) + spaces))
    ensures ParseBalanceStamp(raw) == Some(epoch)
  {
    var p := PartsOf(epoch);
    var clock := " " + Clock12Text(p, padded, true);
    BalanceIsTrimmed(p, padded, spaces);
    PrefixIsSkipped(prefix, Balance(p, padded) + spaces);
    NameShortens(p.monthIndex);
    BalanceDayReadsBack(p, padded, clock);
    Clock12ReadsBack(p, padded, true);
    TextReadsBack(p, MONTH_NAMES[p.monthIndex], clock);
    PartsRoundTrip(epoch);
  }

  /** Wherever the formats overlap the three readers agree. */
  lemma ReadersAgree(epoch: int, slash: string, recharge: string, balance: string, padded: bool)
    requires OnTheClock(PartsOf(epoch)) && PartsOf(epoch).second == 0
    requires Spells(slash, Slash(PartsOf(epoch)))
    requires Spells(recharge, Recharge(PartsOf(epoch), padded))
    requires Spells(balance, Balance(PartsOf(epoch), padded))
    ensures ParseSlashDateTime(slash) == ParseRechargeDate(recharge) == ParseBalanceStamp(balance)
  {
    SlashRoundTrip(epoch, slash);
    RechargeRoundTrip(epoch, padded, recharge);
    assert [] + (Balance(PartsOf(epoch), padded) + []) == Balance(PartsOf(epoch), padded);
    BalanceRoundTrip(epoch, padded, [], [], balance);
  }

  // ---------------------------------------------------------------- the balance label

  lemma {:induction false} InkStopsSkipping(s: string, i: nat)
    requires i < |s| && !IsSpace(s[i])
    ensures SkipSpaces(s) != []
  {
    if i > 0 && IsSpace(s[0]) {
      InkStopsSkipping(s[1..], i - 1);
    }
  }

  lemma {:induction false} EarlierGroupFails(t: string, rest: string)
    requires rest != [] && !IsSpace(rest[0])
    ensures GroupToEnd(t + ")" + rest).None?
  {
    var s := t + ")" + rest;
    if t == [] {
      assert s[1..] == rest;
      InkStopsSkipping(rest, 0);
    } else {
      assert s[1..] == t[1..] + ")" + rest;
      if t[0] == ')' {
        InkStopsSkipping(s[1..], |t|);
      } else {
        EarlierGroupFails(t[1..], rest);
      }
    }
  }

  lemma {:induction false} GroupIsRead(raw: string)
    requires forall c :: c in raw ==> c != ')'
    ensures GroupToEnd(raw + ")") == Some(raw)
  {
    if raw != [] {
      assert raw[0] in raw && forall c :: c in raw[1..] ==> c in raw;
      assert (raw + ")")[1..] == raw[1..] + ")" && raw == [raw[0]] + raw[1..];
      GroupIsRead(raw[1..]);
    }
  }

  /** The stamp is read from the last group of the label, however many groups stand before it. */
  lemma {:induction false} LastGroupIsRead(front: string, raw: string)
    requires forall c :: c in raw ==> c != ')'
    ensures LastGroup(front + ")" + ("(" + (raw + ")"))) == Some(raw)
    ensures ParseBalanceAsOf(front + ")" + ("(" + (raw + ")"))) == ParseBalanceStamp(raw)
  {
    var last := "(" + (raw + ")");
    var s := front + ")" + last;
    GroupIsRead(raw);
    if front == [] {
      assert s[1..] == last && last[1..] == raw + ")";
    } else {
      assert s[1..] == front[1..] + ")" + last;
      EarlierGroupFails(front[1..], last);
      LastGroupIsRead(front[1..], raw);
    }
  }
}
