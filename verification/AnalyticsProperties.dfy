/** What the daily, weekly and weekday series owe to the samples they were cut from. */
module AnalyticsProperties {
  import opened Prelude
  import opened Money
  import opened UsageSampling
  import opened Tiling
  import opened Analytics

  // ---------------------------------------------------------------- one window over its days

  lemma TotalOfOneMore(rows: seq<SpreadRow>, row: SpreadRow)
    ensures Total(rows + [row]) == Total(rows).Plus(SumsOf(row))
  {
  }

  /** The time a window spends in one of its days: from the later of the two beginnings to the earlier of the two ends. */
  lemma TimeOnDay(s: UsageSample, day: int)
    requires s.windowStart < s.windowEnd
    requires OpeningDay(s) <= day <= ClosingDay(s)
    ensures RowOn(s, day).micros > 0
    ensures RowOn(s, day).micros == Min(AtDhaka(s.windowEnd), (day + 1) * US_PER_DAY)
              - (if day == OpeningDay(s) then AtDhaka(s.windowStart) else Min(AtDhaka(s.windowEnd), day * US_PER_DAY))
  {
  }

  lemma {:induction false} SeriesUpTo(s: UsageSample, upTo: int)
    requires s.windowStart < s.windowEnd
    requires OpeningDay(s) <= upTo <= ClosingDay(s)
    ensures var t := Total(Series(s, OpeningDay(s), upTo));
            && t.micros == Min(AtDhaka(s.windowEnd), (upTo + 1) * US_PER_DAY) - AtDhaka(s.windowStart)
            && t.cost == (if upTo == ClosingDay(s) then s.consumedCost else 0.0)
            && t.recharged == (if upTo == ClosingDay(s) then s.rechargePaid else 0.0)
    ensures forall row :: row in Series(s, OpeningDay(s), upTo) ==> row.micros > 0
    decreases upTo - OpeningDay(s)
  {
    TimeOnDay(s, upTo);
    TotalOfOneMore(Series(s, OpeningDay(s), upTo - 1), RowOn(s, upTo));
    if upTo > OpeningDay(s) {
      SeriesUpTo(s, upTo - 1);
    }
  }

  /** Unclipped, a window touches only days it spends time in; its days share out its length,
      and its cost and its recharges land on exactly one of them. */
  lemma WindowSharedOut(s: UsageSample)
    requires s.windowStart < s.windowEnd
    ensures var rows := Series(s, OpeningDay(s), ClosingDay(s));
            && (forall row :: row in rows ==> row.micros > 0)
            && Total(rows) == Sums(s.consumedCost, s.rechargePaid, (s.windowEnd - s.windowStart) * 1000)
    ensures DayStart(ClosingDay(s)) < s.windowEnd <= DayStart(ClosingDay(s) + 1)
  {
    SeriesUpTo(s, ClosingDay(s));
  }

  // ---------------------------------------------------------------- a day of the spread

  /** What one sample owes to one Dhaka day, whatever was asked for. */
  function ShareOn(s: UsageSample, day: int): Sums {
    var closes := DayStart(day) < s.windowEnd <= DayStart(day + 1);
    Sums(if closes then s.consumedCost else 0.0,
         if closes then s.rechargePaid else 0.0,
         Within(s, DayStart(day), DayStart(day + 1)) * 1000)
  }

  function SharesOn(samples: seq<UsageSample>, day: int): Sums {
    if samples == [] then NOTHING
    else SharesOn(samples[..|samples| - 1], day).Plus(ShareOn(samples[|samples| - 1], day))
  }

  lemma {:induction false} GroupConcat(a: seq<SpreadRow>, b: seq<SpreadRow>, g: Granularity, key: int)
    ensures Group(a + b, g, key) == Group(a, g, key).Plus(Group(b, g, key))
  {
    if b == [] {
      assert a + b == a;
    } else {
      assert (a + b)[..|a + b| - 1] == a + b[..|b| - 1];
      GroupConcat(a, b[..|b| - 1], g, key);
    }
  }

  lemma {:induction false} TotalConcat(a: seq<SpreadRow>, b: seq<SpreadRow>)
    ensures Total(a + b) == Total(a).Plus(Total(b))
  {
    if b == [] {
      assert a + b == a;
    } else {
      assert (a + b)[..|a + b| - 1] == a + b[..|b| - 1];
      TotalConcat(a, b[..|b| - 1]);
    }
  }

  lemma {:induction false} SeriesOnDay(s: UsageSample, from: int, upTo: int, day: int)
    ensures Group(Series(s, from, upTo), Daily, day) == if from <= day <= upTo then SumsOf(RowOn(s, day)) else NOTHING
    ensures forall row :: row in Series(s, from, upTo) ==> from <= row.day <= upTo && row == RowOn(s, row.day)
    ensures HasDay(Series(s, from, upTo), day) <==> from <= day <= upTo
    decreases upTo - from + 1
  {
    if from <= upTo {
      SeriesOnDay(s, from, upTo - 1, day);
      var before := Series(s, from, upTo - 1);
      assert Series(s, from, upTo)[..|before|] == before;
      assert Series(s, from, upTo)[|before|].day == upTo;
      if from <= day < upTo {
        var i :| 0 <= i < |before| && before[i].day == day;
        assert Series(s, from, upTo)[i].day == day;
      }
    }
  }

  lemma GroupOfOneMore(rows: seq<SpreadRow>, row: SpreadRow, g: Granularity, key: int)
    ensures Group(rows + [row], g, key)
         == if g.Key(row.day) == key then Group(rows, g, key).Plus(SumsOf(row)) else Group(rows, g, key)
  {
  }

  lemma {:induction false} ClipKeepsRequestedDays(rows: seq<SpreadRow>, r: DayRange, day: int)
    requires r.days != [] && r.First() <= day <= r.Last()
    ensures Group(Clip(rows, r), Daily, day) == Group(rows, Daily, day)
  {
    if rows != [] {
      var n := |rows| - 1;
      var before := Clip(rows[..n], r);
      ClipKeepsRequestedDays(rows[..n], r, day);
      if r.First() <= rows[n].day <= r.Last() {
        GroupOfOneMore(before, rows[n], Daily, day);
      } else {
        assert Clip(rows, r) == before;
      }
    }
  }

  lemma {:induction false} ClipIsAFilter(rows: seq<SpreadRow>, r: DayRange)
    requires r.days != []
    ensures forall row :: row in Clip(rows, r) <==> row in rows && r.First() <= row.day <= r.Last()
  {
    if rows != [] {
      var n := |rows| - 1;
      ClipIsAFilter(rows[..n], r);
      assert rows == rows[..n] + [rows[n]];
    }
  }

  lemma HasDayIsMembership(rows: seq<SpreadRow>, day: int)
    ensures HasDay(rows, day) <==> exists row :: row in rows && row.day == day
  {
  }

  /** The prefilter on the window and the clip on the day lose nothing of a requested day and add nothing to it. */
  lemma SpreadOneOnDay(s: UsageSample, r: DayRange, day: int)
    requires r.Valid() && s.windowStart < s.windowEnd
    requires r.First() <= day <= r.Last()
    ensures Group(SpreadOne(s, r), Daily, day) == ShareOn(s, day)
    ensures HasDay(SpreadOne(s, r), day) <==> Within(s, DayStart(day), DayStart(day + 1)) > 0
  {
    if InBounds(s, r) {
      var rows := Series(s, OpeningDay(s), ClosingDay(s));
      SeriesOnDay(s, OpeningDay(s), ClosingDay(s), day);
      ClipKeepsRequestedDays(rows, r, day);
      ClippedHasDay(rows, r, day);
      RowOnDayIsShare(s, day);
    }
  }

  lemma ClippedHasDay(rows: seq<SpreadRow>, r: DayRange, day: int)
    requires r.days != [] && r.First() <= day <= r.Last()
    ensures HasDay(Clip(rows, r), day) <==> HasDay(rows, day)
  {
    ClipIsAFilter(rows, r);
    HasDayIsMembership(rows, day);
    HasDayIsMembership(Clip(rows, r), day);
  }

  lemma RowOnDayIsShare(s: UsageSample, day: int)
    requires s.windowStart < s.windowEnd
    ensures ShareOn(s, day) == if OpeningDay(s) <= day <= ClosingDay(s) then SumsOf(RowOn(s, day)) else NOTHING
    ensures OpeningDay(s) <= day <= ClosingDay(s) <==> Within(s, DayStart(day), DayStart(day + 1)) > 0
  {
  }

  lemma {:induction false} SpreadRowsAreRequested(samples: seq<UsageSample>, r: DayRange)
    requires r.Valid()
    ensures forall row :: row in Spread(samples, r) ==> r.First() <= row.day <= r.Last()
  {
    if samples != [] {
      var n := |samples| - 1;
      SpreadRowsAreRequested(samples[..n], r);
      ClipIsAFilter(Series(samples[n], OpeningDay(samples[n]), ClosingDay(samples[n])), r);
    }
  }

  /** A requested day's sums are the samples' own shares of it: no trace of the requested range is left in them. */
  lemma {:induction false} SpreadOnDay(samples: seq<UsageSample>, r: DayRange, day: int)
    requires r.Valid() && Proper(samples)
    requires r.First() <= day <= r.Last()
    ensures Group(Spread(samples, r), Daily, day) == SharesOn(samples, day)
    ensures HasDay(Spread(samples, r), day) <==> SharesOn(samples, day).micros > 0
    ensures SharesOn(samples, day).micros >= 0
  {
    if samples != [] {
      var n := |samples| - 1;
      SpreadOnDay(samples[..n], r, day);
      SpreadOneOnDay(samples[n], r, day);
      var a, b := Spread(samples[..n], r), SpreadOne(samples[n], r);
      GroupConcat(a, b, Daily, day);
      HasDayIsMembership(a, day);
      HasDayIsMembership(b, day);
      HasDayIsMembership(a + b, day);
    }
  }

  // ---------------------------------------------------------------- conservation of cost

  datatype Billed = Billed(cost: real, recharged: real)

  /** Cost and recharges of the samples whose window closes within the days `first..last`. */
  function ClosingIn(samples: seq<UsageSample>, first: int, last: int): Billed {
    if samples == [] then Billed(0.0, 0.0)
    else
      var s := samples[|samples| - 1];
      var before := ClosingIn(samples[..|samples| - 1], first, last);
      if DayStart(first) < s.windowEnd <= DayStart(last + 1)
      then Billed(before.cost + s.consumedCost, before.recharged + s.rechargePaid)
      else before
  }

  lemma {:induction false} ClippedSeriesTotal(s: UsageSample, r: DayRange, upTo: int)
    requires r.Valid() && s.windowStart < s.windowEnd
    requires upTo <= ClosingDay(s)
    ensures var t := Total(Clip(Series(s, OpeningDay(s), upTo), r));
            if upTo == ClosingDay(s) && r.First() <= upTo <= r.Last()
            then t.cost == s.consumedCost && t.recharged == s.rechargePaid
            else t.cost == t.recharged == 0.0
    decreases upTo - OpeningDay(s) + 1
  {
    if OpeningDay(s) <= upTo {
      ClippedSeriesTotal(s, r, upTo - 1);
      ClippedTotalOfOneMore(Series(s, OpeningDay(s), upTo - 1), RowOn(s, upTo), r);
    }
  }

  lemma ClippedTotalOfOneMore(rows: seq<SpreadRow>, row: SpreadRow, r: DayRange)
    requires r.days != []
    ensures Total(Clip(rows + [row], r))
         == if r.First() <= row.day <= r.Last() then Total(Clip(rows, r)).Plus(SumsOf(row)) else Total(Clip(rows, r))
  {
    assert (rows + [row])[..|rows|] == rows;
    if r.First() <= row.day <= r.Last() {
      TotalOfOneMore(Clip(rows, r), row);
    } else {
      assert Clip(rows, r) + [] == Clip(rows, r);
    }
  }

  lemma SpreadOneTotal(s: UsageSample, r: DayRange)
    requires r.Valid() && s.windowStart < s.windowEnd
    ensures var t := Total(SpreadOne(s, r));
            if DayStart(r.First()) < s.windowEnd <= DayStart(r.Last() + 1)
            then t.cost == s.consumedCost && t.recharged == s.rechargePaid
            else t.cost == t.recharged == 0.0
  {
    ClippedSeriesTotal(s, r, ClosingDay(s));
  }

  lemma {:induction false} SpreadTotal(samples: seq<UsageSample>, r: DayRange)
    requires r.Valid() && Proper(samples)
    ensures var t := Total(Spread(samples, r));
            ClosingIn(samples, r.First(), r.Last()) == Billed(t.cost, t.recharged)
  {
    if samples != [] {
      var n := |samples| - 1;
      SpreadTotal(samples[..n], r);
      SpreadOneTotal(samples[n], r);
      SpreadOfOneMore(samples, r);
      ClosingOfOneMore(samples, r.First(), r.Last(), Total(Spread(samples[..n], r)), Total(SpreadOne(samples[n], r)));
    }
  }

  lemma ClosingOfOneMore(samples: seq<UsageSample>, first: int, last: int, before: Sums, one: Sums)
    requires samples != []
    requires ClosingIn(samples[..|samples| - 1], first, last) == Billed(before.cost, before.recharged)
    requires var s := samples[|samples| - 1];
             if DayStart(first) < s.windowEnd <= DayStart(last + 1)
             then one.cost == s.consumedCost && one.recharged == s.rechargePaid
             else one.cost == one.recharged == 0.0
    ensures ClosingIn(samples, first, last) == Billed(before.Plus(one).cost, before.Plus(one).recharged)
  {
  }

  lemma SpreadOfOneMore(samples: seq<UsageSample>, r: DayRange)
    requires r.days != [] && samples != []
    ensures var n := |samples| - 1;
            Total(Spread(samples, r)) == Total(Spread(samples[..n], r)).Plus(Total(SpreadOne(samples[n], r)))
  {
    var n := |samples| - 1;
    TotalConcat(Spread(samples[..n], r), SpreadOne(samples[n], r));
  }

  function GroupsTotal(rows: seq<SpreadRow>, g: Granularity, least: int, greatest: int): Sums
    decreases greatest - least + 1
  {
    if least > greatest then NOTHING
    else GroupsTotal(rows, g, least, greatest - 1).Plus(Group(rows, g, greatest))
  }

  lemma {:induction false} GroupsOfOneMore(rows: seq<SpreadRow>, row: SpreadRow, g: Granularity, least: int, greatest: int)
    ensures GroupsTotal(rows + [row], g, least, greatest)
         == if least <= g.Key(row.day) <= greatest
            then GroupsTotal(rows, g, least, greatest).Plus(SumsOf(row))
            else GroupsTotal(rows, g, least, greatest)
    decreases greatest - least + 1
  {
    if least <= greatest {
      GroupsOfOneMore(rows, row, g, least, greatest - 1);
      assert (rows + [row])[..|rows|] == rows;
    }
  }

  /** Grouping is a partition: the groups add up to the rows. */
  lemma {:induction false} GroupsPartition(rows: seq<SpreadRow>, g: Granularity, least: int, greatest: int)
    requires forall row :: row in rows ==> least <= g.Key(row.day) <= greatest
    ensures GroupsTotal(rows, g, least, greatest) == Total(rows)
  {
    if rows == [] {
      NoGroups(g, least, greatest);
    } else {
      var n := |rows| - 1;
      GroupsPartition(rows[..n], g, least, greatest);
      GroupsOfOneMore(rows[..n], rows[n], g, least, greatest);
      assert rows[..n] + [rows[n]] == rows;
    }
  }

  lemma {:induction false} NoGroups(g: Granularity, least: int, greatest: int)
    ensures GroupsTotal([], g, least, greatest) == NOTHING
    decreases greatest - least + 1
  {
    if least <= greatest {
      NoGroups(g, least, greatest - 1);
    }
  }

  lemma {:induction false} AbsentKeySumsToNothing(rows: seq<SpreadRow>, g: Granularity, key: int)
    requires !HasKey(rows, g, key)
    ensures Group(rows, g, key) == NOTHING
  {
    if rows != [] {
      var n := |rows| - 1;
      assert g.Key(rows[n].day) != key;
      forall i | 0 <= i < n ensures g.Key(rows[..n][i].day) != key {
        assert g.Key(rows[i].day) != key;
      }
      AbsentKeySumsToNothing(rows[..n], g, key);
    }
  }

  function BucketTotal(rows: seq<BucketRow>): Billed {
    if rows == [] then Billed(0.0, 0.0)
    else
      var before := BucketTotal(rows[..|rows| - 1]);
      Billed(before.cost + rows[|rows| - 1].cost, before.recharged + rows[|rows| - 1].recharged)
  }

  lemma BucketTotalOfOneMore(rows: seq<BucketRow>, row: BucketRow)
    ensures BucketTotal(rows + [row])
         == Billed(BucketTotal(rows).cost + row.cost, BucketTotal(rows).recharged + row.recharged)
  {
  }

  lemma OneBucketMore(before: seq<BucketRow>, rows: seq<SpreadRow>, g: Granularity, key: int, days: seq<int>)
    requires g != Weekday
    ensures BucketTotal(before + (if HasKey(rows, g, key) then [Bucket(rows, g, key, days)] else []))
         == Billed(BucketTotal(before).cost + Group(rows, g, key).cost,
                   BucketTotal(before).recharged + Group(rows, g, key).recharged)
  {
    if HasKey(rows, g, key) {
      BucketTotalOfOneMore(before, Bucket(rows, g, key, days));
    } else {
      AbsentKeySumsToNothing(rows, g, key);
      assert before + [] == before;
    }
  }

  lemma OneGroupMore(rows: seq<SpreadRow>, g: Granularity, least: int, greatest: int)
    requires least <= greatest
    ensures var before, group := GroupsTotal(rows, g, least, greatest - 1), Group(rows, g, greatest);
            && GroupsTotal(rows, g, least, greatest).cost == before.cost + group.cost
            && GroupsTotal(rows, g, least, greatest).recharged == before.recharged + group.recharged
  {
  }

  lemma {:induction false} SelectTotal(rows: seq<SpreadRow>, g: Granularity, days: seq<int>, least: int, greatest: int)
    requires g != Weekday
    ensures BucketTotal(Select(rows, g, days, least, greatest))
         == Billed(GroupsTotal(rows, g, least, greatest).cost, GroupsTotal(rows, g, least, greatest).recharged)
    decreases greatest - least + 1
  {
    if least <= greatest {
      var before := Select(rows, g, days, least, greatest - 1);
      SelectTotal(rows, g, days, least, greatest - 1);
      OneBucketMore(before, rows, g, greatest, days);
      OneGroupMore(rows, g, least, greatest);
    }
  }

  lemma KeysAreInRange(samples: seq<UsageSample>, r: DayRange, g: Granularity)
    requires r.Valid()
    ensures forall row :: row in Spread(samples, r) ==> g.LeastKey(r) <= g.Key(row.day) <= g.GreatestKey(r)
  {
    SpreadRowsAreRequested(samples, r);
  }

  /** The daily series and the weekly series both add up to the samples whose closing day was asked for. */
  lemma EveryCostIsBilledOnce(meters: seq<seq<UsageSample>>, r: DayRange, g: Granularity)
    requires r.Valid() && Proper(Flatten(meters)) && g != Weekday
    ensures BucketTotal(Buckets(meters, r, g)) == ClosingIn(Flatten(meters), r.First(), r.Last())
  {
    var samples := Flatten(meters);
    var rows := Spread(samples, r);
    KeysAreInRange(samples, r, g);
    SelectTotal(rows, g, r.days, g.LeastKey(r), g.GreatestKey(r));
    GroupsPartition(rows, g, g.LeastKey(r), g.GreatestKey(r));
    SpreadTotal(samples, r);
  }

  // ---------------------------------------------------------------- rounding of the points

  ghost predicate StoredInPoisha(samples: seq<UsageSample>) {
    forall s :: s in samples ==> WholePoisha(s.consumedCost) && WholePoisha(s.rechargePaid)
  }

  lemma {:induction false} SpreadInPoisha(samples: seq<UsageSample>, r: DayRange)
    requires r.days != [] && StoredInPoisha(samples)
    ensures forall row :: row in Spread(samples, r) ==> WholePoisha(row.cost) && WholePoisha(row.recharged)
  {
    if samples != [] {
      var s := samples[|samples| - 1];
      SpreadInPoisha(samples[..|samples| - 1], r);
      SeriesOnDay(s, OpeningDay(s), ClosingDay(s), 0);
      ClipIsAFilter(Series(s, OpeningDay(s), ClosingDay(s)), r);
    }
  }

  lemma {:induction false} GroupInPoisha(rows: seq<SpreadRow>, g: Granularity, key: int)
    requires forall row :: row in rows ==> WholePoisha(row.cost) && WholePoisha(row.recharged)
    ensures WholePoisha(Group(rows, g, key).cost) && WholePoisha(Group(rows, g, key).recharged)
  {
    if rows != [] {
      var n := |rows| - 1;
      GroupInPoisha(rows[..n], g, key);
      WholePoishaSum(Group(rows[..n], g, key).cost, rows[n].cost);
      WholePoishaSum(Group(rows[..n], g, key).recharged, rows[n].recharged);
    }
  }

  function PointTotal(points: seq<Point>): Billed {
    if points == [] then Billed(0.0, 0.0)
    else
      var before := PointTotal(points[..|points| - 1]);
      Billed(before.cost + points[|points| - 1].consumedCost, before.recharged + points[|points| - 1].rechargedAmount)
  }

  lemma {:induction false} PointsOfWholeBuckets(rows: seq<BucketRow>, g: Granularity, meterCount: nat, days: seq<int>)
    requires meterCount > 0
    requires forall row :: row in rows ==> WholePoisha(row.cost) && WholePoisha(row.recharged)
    ensures PointTotal(Points(rows, g, meterCount, days)) == BucketTotal(rows)
  {
    if rows != [] {
      var n := |rows| - 1;
      PointsOfWholeBuckets(rows[..n], g, meterCount, days);
      Round2FixedPoints(rows[n].cost);
      Round2FixedPoints(rows[n].recharged);
      var before := Points(rows[..n], g, meterCount, days);
      assert Points(rows, g, meterCount, days)[..|before|] == before;
    }
  }

  lemma {:induction false} SelectedInPoisha(rows: seq<SpreadRow>, g: Granularity, days: seq<int>, least: int, greatest: int)
    requires g != Weekday
    requires forall row :: row in rows ==> WholePoisha(row.cost) && WholePoisha(row.recharged)
    ensures forall b :: b in Select(rows, g, days, least, greatest) ==> WholePoisha(b.cost) && WholePoisha(b.recharged)
    decreases greatest - least + 1
  {
    if least <= greatest {
      SelectedInPoisha(rows, g, days, least, greatest - 1);
      GroupInPoisha(rows, g, greatest);
    }
  }

  /** Stored figures are whole poisha, so rounding each point to two decimals loses nothing of the total. */
  lemma PointsAddUpExactly(meters: seq<seq<UsageSample>>, r: DayRange, g: Granularity)
    requires r.Valid() && meters != [] && g != Weekday
    requires Proper(Flatten(meters)) && StoredInPoisha(Flatten(meters))
    ensures PointTotal(Usage(meters, r, g)) == ClosingIn(Flatten(meters), r.First(), r.Last())
  {
    var rows := Spread(Flatten(meters), r);
    SpreadInPoisha(Flatten(meters), r);
    SelectedInPoisha(rows, g, r.days, g.LeastKey(r), g.GreatestKey(r));
    PointsOfWholeBuckets(Buckets(meters, r, g), g, |meters|, r.days);
    EveryCostIsBilledOnce(meters, r, g);
  }

  // ---------------------------------------------------------------- splitting a range

  /** The daily point of one day read straight off the samples, with no range in sight. */
  function PointOfDay(samples: seq<UsageSample>, day: int, meterCount: nat): seq<Point>
    requires meterCount > 0
  {
    var share := SharesOn(samples, day);
    if share.micros > 0
    then [ToPoint(Daily, BucketRow(day, share.cost, share.recharged, Seconds(share.micros)), meterCount, [])]
    else []
  }

  /** What `f` says of each of the days `first..last`, one after another. */
  function Joined<T>(f: int -> seq<T>, first: int, last: int): seq<T>
    decreases last - first + 1
  {
    if first > last then [] else Joined(f, first, last - 1) + f(last)
  }

  lemma {:induction false} JoinedSplit<T>(f: int -> seq<T>, first: int, mid: int, last: int)
    requires first <= mid <= last
    ensures Joined(f, first, last) == Joined(f, first, mid) + Joined(f, mid + 1, last)
    decreases last - mid
  {
    if mid < last {
      JoinedSplit(f, first, mid, last - 1);
    }
  }

  function DayByDay(samples: seq<UsageSample>, meterCount: nat): int -> seq<Point>
    requires meterCount > 0
  {
    day => PointOfDay(samples, day, meterCount)
  }

  function PointsOfDays(samples: seq<UsageSample>, first: int, last: int, meterCount: nat): seq<Point>
    requires meterCount > 0
  {
    Joined(DayByDay(samples, meterCount), first, last)
  }

  lemma BucketOfDay(samples: seq<UsageSample>, r: DayRange, day: int, meterCount: nat)
    requires r.Valid() && Proper(samples) && r.First() <= day <= r.Last() && meterCount > 0
    ensures var rows := Spread(samples, r);
            (if HasKey(rows, Daily, day) then [ToPoint(Daily, Bucket(rows, Daily, day, r.days), meterCount, r.days)] else [])
              == PointOfDay(samples, day, meterCount)
  {
    SpreadOnDay(samples, r, day);
    DailyKeyIsDay(Spread(samples, r), day);
  }

  lemma DailyKeyIsDay(rows: seq<SpreadRow>, day: int)
    ensures HasKey(rows, Daily, day) <==> HasDay(rows, day)
  {
    if i :| 0 <= i < |rows| && rows[i].day == day {
      assert Daily.Key(rows[i].day) == day;
    }
  }

  lemma PointsOfOneMore(rows: seq<BucketRow>, row: BucketRow, g: Granularity, meterCount: nat, days: seq<int>)
    requires meterCount > 0
    ensures Points(rows + [row], g, meterCount, days)
         == Points(rows, g, meterCount, days) + [ToPoint(g, row, meterCount, days)]
  {
    assert (rows + [row])[..|rows|] == rows;
  }

  lemma {:induction false} DailyPointsAreShares(samples: seq<UsageSample>, r: DayRange, last: int, meterCount: nat)
    requires r.Valid() && Proper(samples) && last <= r.Last() && meterCount > 0
    ensures Points(Select(Spread(samples, r), Daily, r.days, r.First(), last), Daily, meterCount, r.days)
         == PointsOfDays(samples, r.First(), last, meterCount)
    decreases last - r.First() + 1
  {
    if r.First() <= last {
      DailyPointsAreShares(samples, r, last - 1, meterCount);
      BucketOfDay(samples, r, last, meterCount);
      OnePointMore(Spread(samples, r), r.days, r.First(), last, meterCount);
    }
  }

  lemma OnePointMore(rows: seq<SpreadRow>, days: seq<int>, first: int, last: int, meterCount: nat)
    requires first <= last && meterCount > 0
    ensures Points(Select(rows, Daily, days, first, last), Daily, meterCount, days)
         == Points(Select(rows, Daily, days, first, last - 1), Daily, meterCount, days)
            + (if HasKey(rows, Daily, last) then [ToPoint(Daily, Bucket(rows, Daily, last, days), meterCount, days)] else [])
  {
    var before := Select(rows, Daily, days, first, last - 1);
    if HasKey(rows, Daily, last) {
      PointsOfOneMore(before, Bucket(rows, Daily, last, days), Daily, meterCount, days);
    } else {
      assert before + [] == before;
    }
  }

  /** What a daily series shows depends on the samples and the days asked for, and on nothing else of the request. */
  lemma DailyUsage(meters: seq<seq<UsageSample>>, r: DayRange, first: int, last: int)
    requires r.Valid() && Proper(Flatten(meters)) && meters != []
    requires first == r.First() && last == r.Last()
    ensures Usage(meters, r, Daily) == PointsOfDays(Flatten(meters), first, last, |meters|)
    ensures first <= last
  {
    DailyPointsAreShares(Flatten(meters), r, last, |meters|);
    assert r.days[|r.days| - 1] == first + |r.days| - 1;
  }

  lemma HalvesJoin(meters: seq<seq<UsageSample>>, left: DayRange, right: DayRange, first: int, mid: int, last: int)
    requires left.Valid() && right.Valid() && Proper(Flatten(meters)) && meters != []
    requires left.First() == first && left.Last() == mid && right.First() == mid + 1 && right.Last() == last
    ensures PointsOfDays(Flatten(meters), first, last, |meters|) == Usage(meters, left, Daily) + Usage(meters, right, Daily)
  {
    DailyUsage(meters, left, first, mid);
    DailyUsage(meters, right, mid + 1, last);
    JoinedSplit(DayByDay(Flatten(meters), |meters|), first, mid, last);
  }

  /** Asking for a range in two halves returns the same daily points, coverage included, as asking for it whole. */
  lemma SplittingARangeSplitsThePoints(meters: seq<seq<UsageSample>>, whole: DayRange, left: DayRange, right: DayRange)
    requires whole.Valid() && left.Valid() && right.Valid() && Proper(Flatten(meters))
    requires whole.First() == left.First() && left.Last() + 1 == right.First() && right.Last() == whole.Last()
    ensures Usage(meters, whole, Daily) == Usage(meters, left, Daily) + Usage(meters, right, Daily)
  {
    if meters != [] {
      DailyUsage(meters, whole, whole.First(), whole.Last());
      HalvesJoin(meters, left, right, whole.First(), left.Last(), whole.Last());
    }
  }

  // ---------------------------------------------------------------- coverage

  /** Each meter's samples tile some stretch of time. */
  ghost predicate Tiled(meters: seq<seq<UsageSample>>) {
    forall m :: m in meters ==> IsChain(m)
  }

  ghost predicate IsChain(samples: seq<UsageSample>) {
    exists from, to :: Chain(samples, from, to)
  }

  lemma {:induction false} SharesAreCoveredTime(samples: seq<UsageSample>, day: int)
    ensures SharesOn(samples, day).micros == CoveredTime(samples, DayStart(day), DayStart(day + 1)) * 1000
  {
    if samples != [] {
      SharesAreCoveredTime(samples[..|samples| - 1], day);
    }
  }

  function SumUp<T>(f: T -> Sums, xs: seq<T>): Sums {
    if xs == [] then NOTHING else SumUp(f, xs[..|xs| - 1]).Plus(f(xs[|xs| - 1]))
  }

  lemma {:induction false} SumUpConcat<T>(f: T -> Sums, a: seq<T>, b: seq<T>)
    ensures SumUp(f, a + b) == SumUp(f, a).Plus(SumUp(f, b))
  {
    if b == [] {
      assert a + b == a;
    } else {
      SumUpConcat(f, a, b[..|b| - 1]);
      assert (a + b)[..|a + b| - 1] == a + b[..|b| - 1];
    }
  }

  function ShareOf(day: int): UsageSample -> Sums {
    s => ShareOn(s, day)
  }

  lemma {:induction false} SharesSumUp(samples: seq<UsageSample>, day: int)
    ensures SharesOn(samples, day) == SumUp(ShareOf(day), samples)
  {
    if samples != [] {
      SharesSumUp(samples[..|samples| - 1], day);
    }
  }

  lemma SharesConcat(a: seq<UsageSample>, b: seq<UsageSample>, day: int)
    ensures SharesOn(a + b, day) == SharesOn(a, day).Plus(SharesOn(b, day))
  {
    SharesSumUp(a, day);
    SharesSumUp(b, day);
    SharesSumUp(a + b, day);
    SumUpConcat(ShareOf(day), a, b);
  }

  /** Meters whose samples tile time are observed for at most a day each per day. */
  lemma {:induction false} DayIsAtMostADay(meters: seq<seq<UsageSample>>, day: int)
    requires Tiled(meters)
    ensures Proper(Flatten(meters))
    ensures 0 <= SharesOn(Flatten(meters), day).micros <= |meters| * US_PER_DAY
  {
    if meters != [] {
      var m := meters[|meters| - 1];
      assert meters == meters[..|meters| - 1] + [m];
      DayIsAtMostADay(meters[..|meters| - 1], day);
      assert IsChain(m);
      var from, to :| Chain(m, from, to);
      ChainBounds(m, from, to);
      ChainCoveredTime(m, from, to, DayStart(day), DayStart(day + 1));
      SharesAreCoveredTime(m, day);
      SharesConcat(Flatten(meters[..|meters| - 1]), m, day);
    }
  }

  /** The sums of a group, gathered day by day. */
  function OverDays(rows: seq<SpreadRow>, g: Granularity, key: int, days: seq<int>): int {
    if days == [] then 0
    else
      var last := days[|days| - 1];
      OverDays(rows, g, key, days[..|days| - 1])
      + (if g.Key(last) == key then Group(rows, Daily, last).micros else 0)
  }

  ghost predicate Consecutive(days: seq<int>) {
    forall i :: 0 <= i < |days| ==> days[i] == days[0] + i
  }

  lemma {:induction false} OverDaysOfOneMore(rows: seq<SpreadRow>, row: SpreadRow, g: Granularity, key: int, days: seq<int>)
    requires Consecutive(days)
    ensures OverDays(rows + [row], g, key, days)
         == OverDays(rows, g, key, days) + (if row.day in days && g.Key(row.day) == key then row.micros else 0)
  {
    if days != [] {
      var n := |days| - 1;
      assert days == days[..n] + [days[n]];
      OverDaysOfOneMore(rows, row, g, key, days[..n]);
      GroupOfOneMore(rows, row, Daily, days[n]);
    }
  }

  lemma {:induction false} GroupIsOverDays(rows: seq<SpreadRow>, g: Granularity, key: int, days: seq<int>)
    requires Consecutive(days)
    requires forall row :: row in rows ==> row.day in days
    ensures Group(rows, g, key).micros == OverDays(rows, g, key, days)
  {
    if rows == [] {
      NothingOverDays(g, key, days);
    } else {
      var n := |rows| - 1;
      GroupIsOverDays(rows[..n], g, key, days);
      OverDaysOfOneMore(rows[..n], rows[n], g, key, days);
      assert rows[..n] + [rows[n]] == rows;
    }
  }

  lemma {:induction false} NothingOverDays(g: Granularity, key: int, days: seq<int>)
    ensures OverDays([], g, key, days) == 0
  {
    if days != [] {
      NothingOverDays(g, key, days[..|days| - 1]);
    }
  }

  lemma {:induction false} OverDaysBounded(rows: seq<SpreadRow>, g: Granularity, key: int, days: seq<int>, bound: nat)
    requires forall d :: d in days ==> Group(rows, Daily, d).micros <= (if HasDay(rows, d) then bound else 0)
    ensures OverDays(rows, g, key, days) <= bound * DistinctDays(rows, g, key, days)
  {
    if days != [] {
      var n := |days| - 1;
      OverDaysBounded(rows, g, key, days[..n], bound);
      OneDayMore(bound, DistinctDays(rows, g, key, days[..n]));
    }
  }

  lemma OneDayMore(bound: nat, k: nat)
    ensures bound * (k + 1) == bound * k + bound
  {
  }

  /** A bucket holds at most a day per meter for each distinct day observed in it. */
  lemma BucketTimeBounded(meters: seq<seq<UsageSample>>, r: DayRange, g: Granularity, key: int)
    requires r.Valid() && Tiled(meters)
    ensures var rows := Spread(Flatten(meters), r);
            Group(rows, g, key).micros <= (|meters| * US_PER_DAY) * DistinctDays(rows, g, key, r.days)
  {
    var samples := Flatten(meters);
    var rows := Spread(samples, r);
    SpreadRowsAreRequested(samples, r);
    forall row | row in rows ensures row.day in r.days {
      assert r.days[row.day - r.First()] == row.day;
    }
    GroupIsOverDays(rows, g, key, r.days);
    forall d | d in r.days
      ensures Group(rows, Daily, d).micros <= (if HasDay(rows, d) then |meters| * US_PER_DAY else 0)
    {
      DayIsAtMostADay(meters, d);
      SpreadOnDay(samples, r, d);
    }
    OverDaysBounded(rows, g, key, r.days, |meters| * US_PER_DAY);
  }

  lemma {:induction false} DistinctDaysAreExpected(rows: seq<SpreadRow>, g: Granularity, key: int, days: seq<int>)
    requires Consecutive(days)
    ensures g == Daily ==> DistinctDays(rows, g, key, days) <= (if key in days then 1 else 0)
    ensures g == Weekly ==> DistinctDays(rows, g, key, days) <= InWeek(days, key)
  {
    if days != [] {
      var n := |days| - 1;
      assert days == days[..n] + [days[n]];
      DistinctDaysAreExpected(rows, g, key, days[..n]);
    }
  }

  /** A key that occurs among the rows has a distinct day, and a week that occurs expects at least one. */
  lemma {:induction false} OccurringKeyHasDays(rows: seq<SpreadRow>, g: Granularity, days: seq<int>, day: int)
    requires day in days && HasDay(rows, day)
    ensures DistinctDays(rows, g, g.Key(day), days) > 0
    ensures ExpectedDays(g, g.Key(day), days) > 0
  {
    var n := |days| - 1;
    if days[n] != day {
      OccurringKeyHasDays(rows, g, days[..n], day);
    }
  }

  lemma {:induction false} SelectedRowsAreBuckets(rows: seq<SpreadRow>, g: Granularity, days: seq<int>,
                                                  least: int, greatest: int, row: BucketRow)
    requires row in Select(rows, g, days, least, greatest)
    ensures HasKey(rows, g, row.bucket) && row == Bucket(rows, g, row.bucket, days)
    decreases greatest - least + 1
  {
    if row in Select(rows, g, days, least, greatest - 1) {
      SelectedRowsAreBuckets(rows, g, days, least, greatest - 1, row);
    }
  }

  lemma RatioAtMostOne(micros: int, meters: nat, observed: nat, expected: nat)
    requires meters > 0 && expected > 0 && observed <= expected
    requires micros <= (meters * US_PER_DAY) * observed
    ensures expected * meters > 0
    ensures RawCoverage(Seconds(micros), expected, meters) <= 1.0
  {
    var n := expected * meters;
    assert (meters * US_PER_DAY) * observed <= (meters * US_PER_DAY) * expected == n * US_PER_DAY;
    AtMostOne(Seconds(micros), SECONDS_PER_DAY as real * n as real);
  }

  lemma AtMostOne(x: real, y: real)
    requires x <= y && y > 0.0
    ensures x / y <= 1.0
  {
  }

  lemma BucketIsOccupied(meters: seq<seq<UsageSample>>, r: DayRange, g: Granularity, row: BucketRow)
    requires r.Valid() && row in Buckets(meters, r, g)
    ensures row == Bucket(Spread(Flatten(meters), r), g, row.bucket, r.days)
    ensures DistinctDays(Spread(Flatten(meters), r), g, row.bucket, r.days) > 0
    ensures ExpectedDays(g, row.bucket, r.days) > 0
  {
    var rows := Spread(Flatten(meters), r);
    SelectedRowsAreBuckets(rows, g, r.days, g.LeastKey(r), g.GreatestKey(r), row);
    var i :| 0 <= i < |rows| && g.Key(rows[i].day) == row.bucket;
    SpreadRowsAreRequested(Flatten(meters), r);
    assert rows[i] in rows && r.days[rows[i].day - r.First()] == rows[i].day;
    OccurringKeyHasDays(rows, g, r.days, rows[i].day);
  }

  lemma MeanCoverage(micros: int, meters: nat, observed: nat)
    requires meters > 0 && observed > 0
    requires micros <= (meters * US_PER_DAY) * observed
    ensures RawCoverage(MeanOver(Seconds(micros), observed), 1, meters) <= 1.0
  {
  }

  /** For meters whose samples tile time, no returned bucket was observed for longer than it lasts:
      the cap at one in `ToPoint` is never what makes a coverage figure right. */
  lemma CoverageNeverExceedsOne(meters: seq<seq<UsageSample>>, r: DayRange, g: Granularity, row: BucketRow)
    requires r.Valid() && Tiled(meters) && meters != []
    requires row in Buckets(meters, r, g)
    ensures ExpectedDays(g, row.bucket, r.days) * |meters| > 0
    ensures RawCoverage(row.secs, ExpectedDays(g, row.bucket, r.days), |meters|) <= 1.0
  {
    BucketIsOccupied(meters, r, g, row);
    BucketTimeBounded(meters, r, g, row.bucket);
    BucketCoverage(Spread(Flatten(meters), r), g, row, |meters|, r.days);
  }

  lemma BucketCoverage(rows: seq<SpreadRow>, g: Granularity, row: BucketRow, meterCount: nat, days: seq<int>)
    requires Consecutive(days) && meterCount > 0 && row == Bucket(rows, g, row.bucket, days)
    requires DistinctDays(rows, g, row.bucket, days) > 0 && ExpectedDays(g, row.bucket, days) > 0
    requires Group(rows, g, row.bucket).micros <= (meterCount * US_PER_DAY) * DistinctDays(rows, g, row.bucket, days)
    ensures ExpectedDays(g, row.bucket, days) * meterCount > 0
    ensures RawCoverage(row.secs, ExpectedDays(g, row.bucket, days), meterCount) <= 1.0
  {
    var micros, n := Group(rows, g, row.bucket).micros, DistinctDays(rows, g, row.bucket, days);
    if g == Weekday {
      MeanCoverage(micros, meterCount, n);
    } else {
      DistinctDaysAreExpected(rows, g, row.bucket, days);
      RatioAtMostOne(micros, meterCount, n, ExpectedDays(g, row.bucket, days));
    }
  }

  /** The coverage of a daily point is the time its meters' samples observed of that day, over the time there was. */
  lemma DailyCoverage(meters: seq<seq<UsageSample>>, r: DayRange, row: BucketRow)
    requires r.Valid() && Tiled(meters) && meters != []
    requires row in Buckets(meters, r, Daily)
    ensures var observed := CoveredTime(Flatten(meters), DayStart(row.bucket), DayStart(row.bucket + 1));
            ToPoint(Daily, row, |meters|, r.days).coverage
              == Round2(observed as real / (MS_PER_DAY * |meters|) as real)
  {
    var samples := Flatten(meters);
    var observed := CoveredTime(samples, DayStart(row.bucket), DayStart(row.bucket + 1));
    TiledIsProper(meters);
    DailySeconds(samples, r, row, observed);
    CoverageNeverExceedsOne(meters, r, Daily, row);
    CoverageOfPoint(row, observed, |meters|, r.days);
  }

  lemma DailySeconds(samples: seq<UsageSample>, r: DayRange, row: BucketRow, observed: nat)
    requires r.Valid() && Proper(samples)
    requires row in Select(Spread(samples, r), Daily, r.days, r.First(), r.Last())
    requires observed == CoveredTime(samples, DayStart(row.bucket), DayStart(row.bucket + 1))
    ensures row.secs == Seconds(observed * 1000)
  {
    RequestedRow(samples, r, row);
    SecondsOfDay(samples, r, row, row.bucket, observed);
  }

  lemma RequestedRow(samples: seq<UsageSample>, r: DayRange, row: BucketRow)
    requires r.Valid() && row in Select(Spread(samples, r), Daily, r.days, r.First(), r.Last())
    ensures r.First() <= row.bucket <= r.Last()
    ensures row == Bucket(Spread(samples, r), Daily, row.bucket, r.days)
  {
    SpreadRowsAreRequested(samples, r);
    RowIsRequested(Spread(samples, r), r, row);
  }

  lemma TiledIsProper(meters: seq<seq<UsageSample>>)
    requires Tiled(meters)
    ensures Proper(Flatten(meters))
  {
    DayIsAtMostADay(meters, 0);
  }

  lemma SecondsOfDay(samples: seq<UsageSample>, r: DayRange, row: BucketRow, day: int, observed: nat)
    requires r.Valid() && Proper(samples) && r.First() <= day <= r.Last()
    requires row == Bucket(Spread(samples, r), Daily, day, r.days)
    requires observed == CoveredTime(samples, DayStart(day), DayStart(day + 1))
    ensures row.secs == Seconds(observed * 1000)
  {
    SpreadOnDay(samples, r, day);
    SharesAreCoveredTime(samples, day);
  }

  lemma CoverageOfPoint(row: BucketRow, observed: nat, meterCount: nat, days: seq<int>)
    requires meterCount > 0 && row.secs == Seconds(observed * 1000)
    requires RawCoverage(row.secs, 1, meterCount) <= 1.0
    ensures ToPoint(Daily, row, meterCount, days).coverage == Round2(observed as real / (MS_PER_DAY * meterCount) as real)
  {
    SameShare(observed, meterCount);
  }

  lemma RowIsRequested(rows: seq<SpreadRow>, r: DayRange, row: BucketRow)
    requires r.days != [] && forall x :: x in rows ==> r.First() <= x.day <= r.Last()
    requires row in Select(rows, Daily, r.days, r.First(), r.Last())
    ensures r.First() <= row.bucket <= r.Last()
    ensures row == Bucket(rows, Daily, row.bucket, r.days)
  {
    SelectedRowsAreBuckets(rows, Daily, r.days, r.First(), r.Last(), row);
    var i :| 0 <= i < |rows| && Daily.Key(rows[i].day) == row.bucket;
    assert rows[i] in rows;
  }

  lemma SameShare(observed: nat, n: nat)
    requires n > 0
    ensures RawCoverage(Seconds(observed * 1000), 1, n) == observed as real / (MS_PER_DAY * n) as real
  {
  }

  // ---------------------------------------------------------------- weekday means

  function Weight(bucket: BucketRow, rows: seq<SpreadRow>, days: seq<int>): real {
    bucket.cost * DistinctDays(rows, Weekday, bucket.bucket, days) as real
  }

  /** Weekday means, each weighted by the distinct days it was taken over. */
  function Weighted(buckets: seq<BucketRow>, rows: seq<SpreadRow>, days: seq<int>): real {
    if buckets == [] then 0.0
    else Weighted(buckets[..|buckets| - 1], rows, days) + Weight(buckets[|buckets| - 1], rows, days)
  }

  lemma {:induction false} WeightedSelect(rows: seq<SpreadRow>, days: seq<int>, least: int, greatest: int)
    requires forall row :: row in rows ==> row.day in days
    ensures Weighted(Select(rows, Weekday, days, least, greatest), rows, days)
         == GroupsTotal(rows, Weekday, least, greatest).cost
    decreases greatest - least + 1
  {
    if least <= greatest {
      var before := Select(rows, Weekday, days, least, greatest - 1);
      WeightedSelect(rows, days, least, greatest - 1);
      assert GroupsTotal(rows, Weekday, least, greatest).cost
          == GroupsTotal(rows, Weekday, least, greatest - 1).cost + Group(rows, Weekday, greatest).cost;
      if HasKey(rows, Weekday, greatest) {
        WeightedOfOneMore(before, rows, days, greatest);
      } else {
        AbsentKeySumsToNothing(rows, Weekday, greatest);
        assert Select(rows, Weekday, days, least, greatest) == before;
      }
    }
  }

  lemma WeightedOfOneMore(before: seq<BucketRow>, rows: seq<SpreadRow>, days: seq<int>, key: int)
    requires forall row :: row in rows ==> row.day in days
    requires HasKey(rows, Weekday, key)
    ensures Weighted(before + [Bucket(rows, Weekday, key, days)], rows, days)
         == Weighted(before, rows, days) + Group(rows, Weekday, key).cost
  {
    WeightedOfBucket(before, Bucket(rows, Weekday, key, days), rows, days);
    BucketWeighsItsGroup(rows, days, key);
  }

  lemma BucketWeighsItsGroup(rows: seq<SpreadRow>, days: seq<int>, key: int)
    requires forall row :: row in rows ==> row.day in days
    requires HasKey(rows, Weekday, key)
    ensures Weight(Bucket(rows, Weekday, key, days), rows, days) == Group(rows, Weekday, key).cost
  {
    KeyHasDays(rows, days, key);
    WeighsBack(Bucket(rows, Weekday, key, days), rows, days, Group(rows, Weekday, key).cost,
               DistinctDays(rows, Weekday, key, days));
  }

  /** A mean, weighted by the days it was taken over, is what it was the mean of. */
  lemma WeighsBack(bucket: BucketRow, rows: seq<SpreadRow>, days: seq<int>, x: real, n: nat)
    requires n > 0 && n == DistinctDays(rows, Weekday, bucket.bucket, days) && bucket.cost == MeanOver(x, n)
    ensures Weight(bucket, rows, days) == x
  {
    MeanTimesCount(x, n);
  }

  lemma KeyHasDays(rows: seq<SpreadRow>, days: seq<int>, key: int)
    requires forall row :: row in rows ==> row.day in days
    requires HasKey(rows, Weekday, key)
    ensures DistinctDays(rows, Weekday, key, days) > 0
  {
    var i :| 0 <= i < |rows| && Weekday.Key(rows[i].day) == key;
    assert rows[i] in rows;
    OccurringKeyHasDays(rows, Weekday, days, rows[i].day);
  }

  lemma WeightedOfBucket(before: seq<BucketRow>, bucket: BucketRow, rows: seq<SpreadRow>, days: seq<int>)
    ensures Weighted(before + [bucket], rows, days)
         == Weighted(before, rows, days) + Weight(bucket, rows, days)
  {
    assert (before + [bucket])[..|before|] == before;
  }

  lemma MeanTimesCount(x: real, n: nat)
    requires n > 0
    ensures MeanOver(x, n) * n as real == x
  {
  }

  /** Weekday averages are means over the days observed: weighted back, they give the whole cost again. */
  lemma WeekdayMeansRecombine(meters: seq<seq<UsageSample>>, r: DayRange)
    requires r.Valid() && Proper(Flatten(meters))
    ensures Weighted(Buckets(meters, r, Weekday), Spread(Flatten(meters), r), r.days)
         == ClosingIn(Flatten(meters), r.First(), r.Last()).cost
  {
    var rows := Spread(Flatten(meters), r);
    SpreadRowsAreRequested(Flatten(meters), r);
    forall row | row in rows ensures row.day in r.days {
      assert r.days[row.day - r.First()] == row.day;
    }
    KeysAreInRange(Flatten(meters), r, Weekday);
    WeightedSelect(rows, r.days, 1, 7);
    GroupsPartition(rows, Weekday, 1, 7);
    SpreadTotal(Flatten(meters), r);
  }
}
