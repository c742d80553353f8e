/** Money over whole histories: what the samples add up to, and what the analytics series then reports. */
module MeterConservation {
  import opened Prelude
  import opened Money
  import opened Portal
  import opened UsageSampling
  import opened Tiling
  import opened MeterPoll
  import opened MeterHistory
  import Analytics
  import AnalyticsProperties

  datatype SampleSums = SampleSums(raw: real, paid: real, consumed: real)

  function SumSamples(samples: seq<UsageSample>): SampleSums {
    if samples == [] then SampleSums(0.0, 0.0, 0.0)
    else
      var before := SumSamples(samples[..|samples| - 1]);
      var s := samples[|samples| - 1];
      SampleSums(before.raw + s.rawDelta, before.paid + s.rechargePaid, before.consumed + s.consumedCost)
  }

  lemma SumOfOneMore(samples: seq<UsageSample>, s: UsageSample)
    ensures var before := SumSamples(samples);
            SumSamples(samples + [s])
              == SampleSums(before.raw + s.rawDelta, before.paid + s.rechargePaid, before.consumed + s.consumedCost)
  {
  }

  /** The balances read by the committed polls, in order. */
  function Balances(events: seq<Event>): (r: seq<real>)
    ensures |r| == |Instants(events)|
  {
    if events == [] then []
    else
      var e := events[|events| - 1];
      Balances(events[..|events| - 1]) + (if e.Polled? then [e.snapshot.balance] else [])
  }

  /** Every scrape agrees with one ledger of recharges up to the instant it describes. */
  ghost predicate AgreesWith(events: seq<Event>, ledger: seq<Recharge>) {
    forall e :: e in events && e.Polled? ==> AgreeUpTo(e.snapshot.recharges, ledger, InstantOf(e))
  }

  /** A stamp that repeats repeats its balance. */
  ghost predicate RepeatedStampRepeatsBalance(events: seq<Event>) {
    forall i :: 0 < i < |Instants(events)| && Instants(events)[i] == Instants(events)[i - 1]
      ==> Balances(events)[i] == Balances(events)[i - 1]
  }

  ghost predicate ReadInPoisha(events: seq<Event>) {
    forall e :: e in events && e.Polled? ==>
      && WholePoisha(e.snapshot.balance)
      && forall r :: r in e.snapshot.recharges ==> WholePoisha(r.usableAmount) && WholePoisha(r.rechargeAmount)
  }

  /** A portal that tells one consistent story. */
  ghost predicate Coherent(events: seq<Event>, ledger: seq<Recharge>) {
    NonDecreasing(Instants(events)) && AgreesWith(events, ledger) && RepeatedStampRepeatsBalance(events)
  }

  lemma CoherentPrefix(events: seq<Event>, ledger: seq<Recharge>)
    requires events != [] && Coherent(events, ledger)
    ensures Coherent(events[..|events| - 1], ledger)
  {
    var n := |events| - 1;
    var xs, ys := Instants(events[..n]), Instants(events);
    var bs, cs := Balances(events[..n]), Balances(events);
    assert forall i :: 0 <= i < |xs| ==> xs[i] == ys[i] && bs[i] == cs[i];
  }

  /** The stored state holds the last balance read. */
  lemma {:induction false} LastBalanceIsKept(events: seq<Event>, limits: Limits)
    requires Instants(events) != []
    ensures var rec := Run(events, limits);
            rec.state.Some? && rec.state.value.lastBalance == Some(Balances(events)[|Balances(events)| - 1])
  {
    var n := |events| - 1;
    if events[n].Polled? {
      PollEffect(Run(events[..n], limits), events[n], limits);
    } else {
      LastBalanceIsKept(events[..n], limits);
      QuietEventsKeepReadings(Run(events[..n], limits), events[n], limits);
    }
  }

  /** How far a history's samples may be from the unrounded ledger: a poisha per window, or nothing. */
  function Slack(exact: bool, windows: nat): real {
    if exact then 0.0 else 0.01 * windows as real
  }

  /** The books balance between two instants: balance lost plus credits is what the samples measured. */
  ghost predicate Balanced(samples: seq<UsageSample>, ledger: seq<Recharge>, start: int, end: int,
                           opening: real, closing: real, exact: bool)
  {
    var t := Ledger(ledger, start, end);
    && Abs(SumSamples(samples).raw - (opening - closing + t.credited)) <= Slack(exact, |samples|)
    && Abs(SumSamples(samples).paid - t.paid) <= Slack(exact, |samples|)
  }

  /** One window's share of the books: what its sample measured against what the ledger says of it. */
  lemma OneWindow(rec: MeterRecord, e: Event, ledger: seq<Recharge>, limits: Limits, exact: bool)
    requires e.Polled? && HasReading(rec) && LastAt(rec) < InstantOf(e)
    requires AgreeUpTo(e.snapshot.recharges, ledger, InstantOf(e))
    requires exact ==> WholePoisha(e.snapshot.balance) && WholePoisha(rec.state.value.lastBalance.value)
                       && forall r :: r in e.snapshot.recharges ==> WholePoisha(r.usableAmount) && WholePoisha(r.rechargeAmount)
    ensures SampleOf(rec, e, limits).Some?
    ensures var s, t := SampleOf(rec, e, limits).value, Ledger(ledger, LastAt(rec), InstantOf(e));
            && Abs(s.rawDelta - (rec.state.value.lastBalance.value - e.snapshot.balance + t.credited)) <= Slack(exact, 1)
            && Abs(s.rechargePaid - t.paid) <= Slack(exact, 1)
  {
    var opening, start, end := rec.state.value.lastBalance.value, LastAt(rec), InstantOf(e);
    SampleSpans(rec, e, limits);
    SampleIsClose(SampleOf(rec, e, limits).value, opening, e.snapshot.balance, start, end, e.snapshot.recharges, limits, exact);
    AgainstTheLedger(SampleOf(rec, e, limits).value, e.snapshot.recharges, ledger, start, end,
                     opening - e.snapshot.balance, Slack(exact, 1));
  }

  lemma SampleIsClose(s: UsageSample, opening: real, closing: real, start: int, end: int, rs: seq<Recharge>,
                      limits: Limits, exact: bool)
    requires start < end && BuildUsageSample(opening, closing, start, end, rs, limits) == Some(s)
    requires exact ==> WholePoisha(opening) && WholePoisha(closing)
                       && forall r :: r in rs ==> WholePoisha(r.usableAmount) && WholePoisha(r.rechargeAmount)
    ensures Abs(s.rawDelta - (opening - closing + Ledger(rs, start, end).credited)) <= Slack(exact, 1)
    ensures Abs(s.rechargePaid - Ledger(rs, start, end).paid) <= Slack(exact, 1)
  {
    if exact {
      SampleBalancesExactly(opening, closing, start, end, rs, limits);
    } else {
      DeltaIsClose(opening, closing, start, end, rs, limits);
    }
  }

  /** What is close to the scrape's recharges is close to the ledger's. */
  lemma AgainstTheLedger(s: UsageSample, rs: seq<Recharge>, ledger: seq<Recharge>, start: int, end: int,
                         lost: real, slack: real)
    requires AgreeUpTo(rs, ledger, end)
    requires Abs(s.rawDelta - (lost + Ledger(rs, start, end).credited)) <= slack
    requires Abs(s.rechargePaid - Ledger(rs, start, end).paid) <= slack
    ensures Abs(s.rawDelta - (lost + Ledger(ledger, start, end).credited)) <= slack
    ensures Abs(s.rechargePaid - Ledger(ledger, start, end).paid) <= slack
  {
    AgreeingListingsGiveOneLedger(rs, ledger, start, end, end);
  }

  lemma DeltaIsClose(opening: real, closing: real, start: int, end: int, rs: seq<Recharge>, limits: Limits)
    requires start < end
    ensures var s, t := BuildUsageSample(opening, closing, start, end, rs, limits).value, Ledger(rs, start, end);
            && Abs(s.rawDelta - (opening - closing + t.credited)) <= 0.01
            && Abs(s.rechargePaid - t.paid) <= 0.01
  {
    SampleBalances(opening, closing, start, end, rs, limits);
  }

  lemma DistancesAdd(a: real, b: real, x: real, c: real, d: real, y: real)
    requires Abs(a - b) <= x && Abs(c - d) <= y
    ensures Abs((a + c) - (b + d)) <= x + y
  {
  }

  /** One more window keeps the books. */
  lemma BalancedStep(samples: seq<UsageSample>, ledger: seq<Recharge>, e: Event, rec: MeterRecord,
                     first: int, opening: real, limits: Limits, exact: bool)
    requires e.Polled? && TiledFrom(rec, first) && rec.samples == samples
    requires LastAt(rec) < InstantOf(e)
    requires AgreeUpTo(e.snapshot.recharges, ledger, InstantOf(e))
    requires exact ==> WholePoisha(e.snapshot.balance) && WholePoisha(rec.state.value.lastBalance.value)
                       && forall r :: r in e.snapshot.recharges ==> WholePoisha(r.usableAmount) && WholePoisha(r.rechargeAmount)
    requires Balanced(samples, ledger, first, LastAt(rec), opening, rec.state.value.lastBalance.value, exact)
    ensures SampleOf(rec, e, limits).Some?
    ensures Balanced(samples + [SampleOf(rec, e, limits).value], ledger, first, InstantOf(e),
                     opening, e.snapshot.balance, exact)
  {
    OneWindow(rec, e, ledger, limits, exact);
    ChainBounds(samples, first, LastAt(rec));
    BalancedOneMore(samples, SampleOf(rec, e, limits).value, ledger, first, LastAt(rec), InstantOf(e),
                    opening, rec.state.value.lastBalance.value, e.snapshot.balance, exact);
  }

  lemma BalancedOneMore(samples: seq<UsageSample>, s: UsageSample, ledger: seq<Recharge>,
                        first: int, start: int, end: int, opening: real, middle: real, closing: real, exact: bool)
    requires first <= start <= end && Balanced(samples, ledger, first, start, opening, middle, exact)
    requires var t := Ledger(ledger, start, end);
             && Abs(s.rawDelta - (middle - closing + t.credited)) <= Slack(exact, 1)
             && Abs(s.rechargePaid - t.paid) <= Slack(exact, 1)
    ensures Balanced(samples + [s], ledger, first, end, opening, closing, exact)
  {
    var sums, before, window := SumSamples(samples), Ledger(ledger, first, start), Ledger(ledger, start, end);
    var slack := Slack(exact, |samples|);
    LedgerSplits(ledger, first, start, end);
    SumOfOneMore(samples, s);
    SlackOfOneMore(exact, |samples|);
    DistancesAdd(sums.raw, opening - middle + before.credited, slack,
                 s.rawDelta, middle - closing + window.credited, Slack(exact, 1));
    DistancesAdd(sums.paid, before.paid, slack, s.rechargePaid, window.paid, Slack(exact, 1));
  }

  lemma SlackOfOneMore(exact: bool, n: nat)
    ensures Slack(exact, n + 1) == Slack(exact, n) + Slack(exact, 1)
  {
  }

  /** Over a coherent history the samples account for every taka the balance lost and every recharge in between, once:
      to the poisha when every figure read is whole poisha, and within a poisha per window otherwise. */
  lemma {:induction false} BooksBalance(events: seq<Event>, limits: Limits, ledger: seq<Recharge>, exact: bool)
    requires Coherent(events, ledger) && Instants(events) != []
    requires exact ==> ReadInPoisha(events)
    ensures var xs, bs := Instants(events), Balances(events);
            Balanced(Run(events, limits).samples, ledger, xs[0], xs[|xs| - 1], bs[0], bs[|bs| - 1], exact)
  {
    var n := |events| - 1;
    CoherentPrefix(events, ledger);
    assert forall f :: f in events[..n] ==> f in events;
    if Instants(events[..n]) == [] {
      FirstPollOpensBooks(events, limits, ledger, exact);
    } else {
      BooksBalance(events[..n], limits, ledger, exact);
      if events[n].Polled? {
        LaterPollKeepsBooks(events, limits, ledger, exact);
      } else {
        QuietEventKeepsBooks(events, limits);
      }
    }
  }

  lemma QuietEventKeepsBooks(events: seq<Event>, limits: Limits)
    requires events != [] && !events[|events| - 1].Polled?
    ensures var before := events[..|events| - 1];
            && Run(events, limits).samples == Run(before, limits).samples
            && Instants(events) == Instants(before) && Balances(events) == Balances(before)
  {
    QuietEventsKeepReadings(Run(events[..|events| - 1], limits), events[|events| - 1], limits);
  }

  lemma FirstPollOpensBooks(events: seq<Event>, limits: Limits, ledger: seq<Recharge>, exact: bool)
    requires events != [] && events[|events| - 1].Polled? && Instants(events[..|events| - 1]) == []
    ensures var x, b := InstantOf(events[|events| - 1]), events[|events| - 1].snapshot.balance;
            && Instants(events) == [x] && Balances(events) == [b]
            && Balanced(Run(events, limits).samples, ledger, x, x, b, b, exact)
  {
    var n := |events| - 1;
    RunTilesWhileInstantsAdvance(events[..n], limits);
    FirstPollStoresNoSample(Run(events[..n], limits), events[n], limits);
    BooksOpenEmpty(ledger, InstantOf(events[n]), events[n].snapshot.balance, exact);
  }

  lemma BooksOpenEmpty(ledger: seq<Recharge>, at: int, balance: real, exact: bool)
    ensures Balanced([], ledger, at, at, balance, balance, exact)
  {
    LedgerOfEmptyWindow(ledger, at);
  }

  lemma FirstPollStoresNoSample(rec: MeterRecord, e: Event, limits: Limits)
    requires NeverRead(rec) && e.Polled?
    ensures After(rec, e, limits).samples == []
  {
    PollEffect(rec, e, limits);
  }

  lemma LaterPollKeepsBooks(events: seq<Event>, limits: Limits, ledger: seq<Recharge>, exact: bool)
    requires events != [] && events[|events| - 1].Polled? && Coherent(events, ledger)
    requires exact ==> ReadInPoisha(events)
    requires Instants(events[..|events| - 1]) != []
    requires var before := events[..|events| - 1];
             var xs, bs := Instants(before), Balances(before);
             Balanced(Run(before, limits).samples, ledger, xs[0], xs[|xs| - 1], bs[0], bs[|bs| - 1], exact)
    ensures var xs, bs := Instants(events), Balances(events);
            Balanced(Run(events, limits).samples, ledger, xs[0], xs[|xs| - 1], bs[0], bs[|bs| - 1], exact)
  {
    var n := |events| - 1;
    var e, before := events[n], events[..n];
    var rec, xs, bs := Run(before, limits), Instants(before), Balances(before);
    CoherentPrefix(events, ledger);
    RunTilesWhileInstantsAdvance(before, limits);
    LastBalanceIsKept(before, limits);
    PollKeepsTiling(rec, e, xs[0], limits);
    assert e in events;
    assert Instants(events)[|xs| - 1] <= Instants(events)[|xs|];
    if xs[|xs| - 1] < InstantOf(e) {
      if exact {
        LastBalanceInPoisha(before);
      }
      BalancedStep(rec.samples, ledger, e, rec, xs[0], bs[0], limits, exact);
    } else {
      assert Instants(events)[|xs|] == Instants(events)[|xs| - 1];
    }
  }

  lemma {:induction false} LastBalanceInPoisha(events: seq<Event>)
    requires Instants(events) != [] && ReadInPoisha(events)
    ensures WholePoisha(Balances(events)[|Balances(events)| - 1])
  {
    var n := |events| - 1;
    assert events[n] in events;
    if !events[n].Polled? {
      LastBalanceInPoisha(events[..n]);
    }
  }

  // ---------------------------------------------------------------- from the table to the chart

  ghost predicate WellBuilt(s: UsageSample) {
    && s.windowStart < s.windowEnd
    && WholePoisha(s.consumedCost) && WholePoisha(s.rechargePaid)
    && s.consumedCost >= 0.0
    && (Suppressed(s) ==> s.consumedCost == 0.0)
    && (!Suppressed(s) ==> 0.0 <= s.consumedCost - s.rawDelta <= 0.01)
  }

  /** Every stored sample advances, is priced in whole poisha and never negatively, whatever the run did. */
  lemma {:induction false} StoredSamplesAreWellBuilt(events: seq<Event>, limits: Limits)
    ensures forall s :: s in Run(events, limits).samples ==> WellBuilt(s)
  {
    if events != [] {
      var n := |events| - 1;
      var e, rec := events[n], Run(events[..n], limits);
      StoredSamplesAreWellBuilt(events[..n], limits);
      if e.Polled? {
        PollEffect(rec, e, limits);
        if SampleOf(rec, e, limits).Some? { BuiltSampleIsWellBuilt(rec, e, limits); }
      } else {
        QuietEventsKeepReadings(rec, e, limits);
      }
    }
  }

  lemma BuiltSampleIsWellBuilt(rec: MeterRecord, e: Event, limits: Limits)
    requires e.Polled? && SampleOf(rec, e, limits).Some?
    ensures WellBuilt(SampleOf(rec, e, limits).value)
  {
    var st := rec.state.value;
    SampleSpans(rec, e, limits);
    SampleBalances(st.lastBalance.value, e.snapshot.balance, st.lastBalanceAt.value, InstantOf(e),
                   e.snapshot.recharges, limits);
  }

  lemma {:induction false} ConsumedTracksRaw(samples: seq<UsageSample>)
    requires forall s :: s in samples ==> WellBuilt(s) && !Suppressed(s)
    ensures 0.0 <= SumSamples(samples).consumed - SumSamples(samples).raw <= 0.01 * |samples| as real
  {
    if samples != [] {
      assert samples[|samples| - 1] in samples;
      ConsumedTracksRaw(samples[..|samples| - 1]);
    }
  }

  lemma {:induction false} WholeHistoryClosesInRange(samples: seq<UsageSample>, first: int, last: int)
    requires forall s :: s in samples ==>
               Analytics.DayStart(first) < s.windowEnd <= Analytics.DayStart(last + 1)
    ensures var billed := AnalyticsProperties.ClosingIn(samples, first, last);
            billed.cost == SumSamples(samples).consumed && billed.recharged == SumSamples(samples).paid
  {
    if samples != [] {
      assert samples[|samples| - 1] in samples;
      WholeHistoryClosesInRange(samples[..|samples| - 1], first, last);
    }
  }

  /** From scrape to chart: over a coherent history with no suppressed reading, a daily or weekly series that spans it
      adds up to what the balance lost plus what was credited, at most a poisha a window above,
      and its recharges to what the ledger says was paid. */
  lemma ChartReconcilesWithThePortal(events: seq<Event>, limits: Limits, ledger: seq<Recharge>,
                                     r: Analytics.DayRange, g: Analytics.Granularity)
    requires Coherent(events, ledger) && ReadInPoisha(events) && Instants(events) != []
    requires r.Valid() && !g.Weekday?
    requires Analytics.DayStart(r.First()) <= Instants(events)[0]
    requires Instants(events)[|Instants(events)| - 1] <= Analytics.DayStart(r.Last() + 1)
    requires forall s :: s in Run(events, limits).samples ==> !Suppressed(s)
    ensures var xs, bs := Instants(events), Balances(events);
            var samples := Run(events, limits).samples;
            var told := Ledger(ledger, xs[0], xs[|xs| - 1]);
            var shown := AnalyticsProperties.PointTotal(Analytics.Usage([samples], r, g));
            && 0.0 <= shown.cost - (bs[0] - bs[|bs| - 1] + told.credited) <= 0.01 * |samples| as real
            && shown.recharged == told.paid
  {
    var samples := Run(events, limits).samples;
    BooksBalance(events, limits, ledger, true);
    StoredSamplesAreWellBuilt(events, limits);
    ConsumedTracksRaw(samples);
    IntactHistoryMeasuresOnce(events, limits);
    WholeHistoryClosesInRange(samples, r.First(), r.Last());
    OneMeter(samples);
    AnalyticsProperties.PointsAddUpExactly([samples], r, g);
  }

  lemma OneMeter(samples: seq<UsageSample>)
    ensures Analytics.Flatten([samples]) == samples
  {
  }

  /** The samples of several meters, each with a history that never went back. */
  ghost predicate Histories(meters: seq<seq<UsageSample>>, limits: Limits) {
    forall m :: m in meters ==> ComesFromHistory(m, limits)
  }

  ghost predicate ComesFromHistory(samples: seq<UsageSample>, limits: Limits) {
    exists events :: NonDecreasing(Instants(events)) && samples == Run(events, limits).samples
  }

  /** Reading depends on writing: for meters whose instants never went back, no day, week or weekday is reported
      as observed for longer than it lasted, before any cap is applied. */
  lemma HistoriesNeverOvercover(meters: seq<seq<UsageSample>>, limits: Limits, r: Analytics.DayRange,
                                g: Analytics.Granularity, row: Analytics.BucketRow)
    requires Histories(meters, limits) && meters != [] && r.Valid()
    requires row in Analytics.Buckets(meters, r, g)
    ensures Analytics.ExpectedDays(g, row.bucket, r.days) * |meters| > 0
    ensures Analytics.RawCoverage(row.secs, Analytics.ExpectedDays(g, row.bucket, r.days), |meters|) <= 1.0
  {
    forall m | m in meters ensures AnalyticsProperties.IsChain(m) {
      assert ComesFromHistory(m, limits);
      var events :| NonDecreasing(Instants(events)) && m == Run(events, limits).samples;
      RunTilesWhileInstantsAdvance(events, limits);
      if Instants(events) == [] {
        assert Chain(m, 0, 0);
      }
    }
    AnalyticsProperties.CoverageNeverExceedsOne(meters, r, g, row);
  }
}
