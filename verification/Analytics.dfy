/** Cuts stored usage windows into Asia/Dhaka days, weeks and weekdays.
    Days are counted from 1970-01-01; Postgres timestamps are microseconds of Dhaka wall clock. */
module Analytics {
  import opened Prelude
  import opened Money
  import opened UsageSampling

  const US_PER_DAY := 86_400_000_000
  const DHAKA_OFFSET_MS := 21_600_000
  const MAX_RANGE_DAYS := 366

  /** The instant at which a Dhaka day begins. */
  function DayStart(day: int): int {
    day * MS_PER_DAY - DHAKA_OFFSET_MS
  }

  function DhakaDay(instant: int): int {
    (instant + DHAKA_OFFSET_MS) / MS_PER_DAY
  }

  /** `timestamptz AT TIME ZONE 'Asia/Dhaka'`. */
  function AtDhaka(instant: int): int {
    (instant + DHAKA_OFFSET_MS) * 1000
  }

  // ---------------------------------------------------------------- the requested range

  datatype RangeError = NotADate | ToBeforeFrom | TooWide

  datatype DayRange = DayRange(rangeStart: int, rangeEnd: int, days: seq<int>) {
    /** A non-empty run of consecutive days, bounded by the instants they begin and end at. */
    ghost predicate Valid() {
      && days != []
      && (forall i :: 0 <= i < |days| ==> days[i] == days[0] + i)
      && rangeStart == DayStart(days[0])
      && rangeEnd == DayStart(days[|days| - 1] + 1)
    }

    function First(): int requires days != [] { days[0] }

    function Last(): int requires days != [] { days[|days| - 1] }
  }

  /** The days `first..last`, both included. */
  function CalendarRange(first: int, last: int): (r: DayRange)
    requires first <= last
    ensures r.Valid() && r.First() == first && r.Last() == last
  {
    DayRange(DayStart(first), DayStart(last + 1), seq(last - first + 1, i requires 0 <= i => first + i))
  }

  /** `from` and `to` are calendar dates already read as day numbers, or unreadable. */
  method ResolveRange(from: Option<int>, to: Option<int>) returns (r: Result<DayRange, RangeError>)
    ensures from.None? || to.None? <==> r == Err(NotADate)
    ensures from.Some? && to.Some? ==>
              && (r == Err(ToBeforeFrom) <==> to.value < from.value)
              && (r == Err(TooWide) <==> to.value - from.value >= MAX_RANGE_DAYS)
    ensures r.Ok? ==> r.value.Valid() && r.value == CalendarRange(from.value, to.value)
  {
    if from.None? || to.None? { return Err(NotADate); }
    var rangeStart, inclusiveEnd := DayStart(from.value), DayStart(to.value);
    if inclusiveEnd < rangeStart { return Err(ToBeforeFrom); }
    var dayCount := (inclusiveEnd - rangeStart) / MS_PER_DAY + 1;
    assert dayCount == to.value - from.value + 1;
    if dayCount > MAX_RANGE_DAYS { return Err(TooWide); }
    var days := [];
    for i := 0 to dayCount
      invariant |days| == i
      invariant forall j :: 0 <= j < i ==> days[j] == from.value + j
    {
      days := days + [from.value + i];
    }
    return Ok(DayRange(rangeStart, inclusiveEnd + MS_PER_DAY, days));
  }

  /** The half-open instant range holds exactly the instants of the requested days. */
  lemma RangeHoldsItsDays(r: DayRange, instant: int)
    requires r.Valid()
    ensures r.rangeStart <= instant < r.rangeEnd <==> DhakaDay(instant) in r.days
  {
    var day := DhakaDay(instant);
    if r.First() <= day <= r.Last() {
      assert r.days[day - r.First()] == day;
    }
  }

  // ---------------------------------------------------------------- the spread query

  datatype SpreadRow = SpreadRow(day: int, micros: int, cost: real, recharged: real)

  function OpeningDay(s: UsageSample): int {
    AtDhaka(s.windowStart) / US_PER_DAY
  }

  /** The day a window is billed to: one microsecond before it ends. */
  function ClosingDay(s: UsageSample): int {
    (AtDhaka(s.windowEnd) - 1) / US_PER_DAY
  }

  function RowOn(s: UsageSample, day: int): SpreadRow {
    SpreadRow(
      day,
      Min(AtDhaka(s.windowEnd), (day + 1) * US_PER_DAY) - Max(AtDhaka(s.windowStart), day * US_PER_DAY),
      if day == ClosingDay(s) then s.consumedCost else 0.0,
      if day == ClosingDay(s) then s.rechargePaid else 0.0)
  }

  /** `generate_series(first, last, '1 day')` with the columns computed for each day. */
  function Series(s: UsageSample, first: int, last: int): seq<SpreadRow>
    decreases last - first + 1
  {
    if first > last then [] else Series(s, first, last - 1) + [RowOn(s, last)]
  }

  /** The `WHERE` on day that clips what a straddling window pulled in. */
  function Clip(rows: seq<SpreadRow>, r: DayRange): seq<SpreadRow>
    requires r.days != []
  {
    if rows == [] then []
    else
      var last := rows[|rows| - 1];
      Clip(rows[..|rows| - 1], r) + (if r.First() <= last.day <= r.Last() then [last] else [])
  }

  /** The `WHERE` of `bounds`. */
  predicate InBounds(s: UsageSample, r: DayRange) {
    s.windowEnd > r.rangeStart && s.windowStart < r.rangeEnd
  }

  function SpreadOne(s: UsageSample, r: DayRange): seq<SpreadRow>
    requires r.days != []
  {
    if InBounds(s, r) then Clip(Series(s, OpeningDay(s), ClosingDay(s)), r) else []
  }

  function Spread(samples: seq<UsageSample>, r: DayRange): seq<SpreadRow>
    requires r.days != []
  {
    if samples == [] then []
    else Spread(samples[..|samples| - 1], r) + SpreadOne(samples[|samples| - 1], r)
  }

  // ---------------------------------------------------------------- grouping

  datatype Granularity = Daily | Weekly | Weekday {
    /** The bucket of a day: itself, the Monday of its week, or its ISO day of week. Day 0 was a Thursday. */
    function Key(day: int): int {
      match this
      case Daily => day
      case Weekly => day - (day + 3) % 7
      case Weekday => (day + 3) % 7 + 1
    }

    function LeastKey(r: DayRange): int
      requires r.days != []
    {
      match this
      case Daily => r.First()
      case Weekly => r.First() - 6
      case Weekday => 1
    }

    function GreatestKey(r: DayRange): int
      requires r.days != []
    {
      match this
      case Daily => r.Last()
      case Weekly => r.Last()
      case Weekday => 7
    }
  }

  /** Weeks run from Monday to Sunday, weekdays count them from 1, and 1970-01-01 was a Thursday. */
  lemma CalendarKeys(day: int)
    ensures Weekly.Key(day) <= day < Weekly.Key(day) + 7 && Weekday.Key(Weekly.Key(day)) == 1
    ensures Weekday.Key(day) == day - Weekly.Key(day) + 1
    ensures Weekday.Key(day + 1) == (if Weekday.Key(day) == 7 then 1 else Weekday.Key(day) + 1)
    ensures Weekday.Key(0) == 4
  {
  }

  datatype Sums = Sums(cost: real, recharged: real, micros: int) {
    function Plus(that: Sums): Sums {
      Sums(cost + that.cost, recharged + that.recharged, micros + that.micros)
    }
  }

  const NOTHING := Sums(0.0, 0.0, 0)

  function SumsOf(row: SpreadRow): Sums {
    Sums(row.cost, row.recharged, row.micros)
  }

  function Total(rows: seq<SpreadRow>): Sums {
    if rows == [] then NOTHING else Total(rows[..|rows| - 1]).Plus(SumsOf(rows[|rows| - 1]))
  }

  /** The sums of one group. */
  function Group(rows: seq<SpreadRow>, g: Granularity, key: int): Sums {
    if rows == [] then NOTHING
    else
      var before := Group(rows[..|rows| - 1], g, key);
      var last := rows[|rows| - 1];
      if g.Key(last.day) == key then before.Plus(SumsOf(last)) else before
  }

  predicate HasDay(rows: seq<SpreadRow>, day: int) {
    exists i :: 0 <= i < |rows| && rows[i].day == day
  }

  predicate HasKey(rows: seq<SpreadRow>, g: Granularity, key: int) {
    exists i :: 0 <= i < |rows| && g.Key(rows[i].day) == key
  }

  /** `COUNT(DISTINCT day)` of one group, over the requested days. */
  function DistinctDays(rows: seq<SpreadRow>, g: Granularity, key: int, days: seq<int>): nat {
    if days == [] then 0
    else
      var last := days[|days| - 1];
      DistinctDays(rows, g, key, days[..|days| - 1])
      + (if g.Key(last) == key && HasDay(rows, last) then 1 else 0)
  }

  datatype BucketRow = BucketRow(bucket: int, cost: real, recharged: real, secs: real)

  function Seconds(micros: int): real {
    micros as real / 1_000_000.0
  }

  /** `SUM(x) / NULLIF(COUNT(DISTINCT day), 0)`, a null read as 0. */
  function MeanOver(x: real, n: nat): real {
    if n == 0 then 0.0 else x / n as real
  }

  function Bucket(rows: seq<SpreadRow>, g: Granularity, key: int, days: seq<int>): BucketRow {
    var sums := Group(rows, g, key);
    if g == Weekday then
      var n := DistinctDays(rows, g, key, days);
      BucketRow(key, MeanOver(sums.cost, n), 0.0, MeanOver(Seconds(sums.micros), n))
    else
      BucketRow(key, sums.cost, sums.recharged, Seconds(sums.micros))
  }

  /** `GROUP BY key ORDER BY key`: one row for each key that occurs, in ascending order. */
  function Select(rows: seq<SpreadRow>, g: Granularity, days: seq<int>, least: int, greatest: int): seq<BucketRow>
    decreases greatest - least + 1
  {
    if least > greatest then []
    else Select(rows, g, days, least, greatest - 1)
         + (if HasKey(rows, g, greatest) then [Bucket(rows, g, greatest, days)] else [])
  }

  // ---------------------------------------------------------------- points

  datatype Point = Point(key: int, consumedCost: real, rechargedAmount: real, coverage: real)

  function InWeek(days: seq<int>, monday: int): nat {
    if days == [] then 0
    else InWeek(days[..|days| - 1], monday) + (if monday <= days[|days| - 1] < monday + 7 then 1 else 0)
  }

  /** How many days a bucket should hold, given the requested ones. */
  function ExpectedDays(g: Granularity, bucket: int, days: seq<int>): nat {
    if g != Weekly then 1 else InWeek(days, bucket)
  }

  /** The share of a bucket that was observed, before it is capped at one. */
  function RawCoverage(secs: real, expectedDays: nat, meterCount: nat): real
    requires expectedDays * meterCount > 0
  {
    secs / (SECONDS_PER_DAY as real * (expectedDays * meterCount) as real)
  }

  function ToPoint(g: Granularity, row: BucketRow, meterCount: nat, days: seq<int>): Point
    requires meterCount > 0
  {
    var expectedDays := ExpectedDays(g, row.bucket, days);
    var coverage :=
      if expectedDays == 0 then 0.0
      else
        var raw := RawCoverage(row.secs, expectedDays, meterCount);
        if raw < 1.0 then raw else 1.0;
    Point(row.bucket, Round2(row.cost), Round2(row.recharged), Round2(coverage))
  }

  function Points(rows: seq<BucketRow>, g: Granularity, meterCount: nat, days: seq<int>): seq<Point>
    requires meterCount > 0
  {
    if rows == [] then []
    else Points(rows[..|rows| - 1], g, meterCount, days) + [ToPoint(g, rows[|rows| - 1], meterCount, days)]
  }

  function Flatten(meters: seq<seq<UsageSample>>): seq<UsageSample> {
    if meters == [] then [] else Flatten(meters[..|meters| - 1]) + meters[|meters| - 1]
  }

  function Buckets(meters: seq<seq<UsageSample>>, r: DayRange, g: Granularity): seq<BucketRow>
    requires r.days != []
  {
    Select(Spread(Flatten(meters), r), g, r.days, g.LeastKey(r), g.GreatestKey(r))
  }

  /** The analytics series over the samples of each meter in scope. */
  function Usage(meters: seq<seq<UsageSample>>, r: DayRange, g: Granularity): seq<Point>
    requires r.days != []
  {
    if meters == [] then [] else Points(Buckets(meters, r, g), g, |meters|, r.days)
  }
}
