/** Alerts over whole histories: how many there can be, what separates them, and what muting does not change. */
module MeterAlerts {
  import opened Prelude
  import opened Portal
  import opened UsageSampling
  import opened AlertEvaluation
  import opened MeterPoll
  import opened MeterHistory
  import Analytics
  import UsageAnomaly

  /** The alerts decided at event `i`, whether or not their pushes got through. */
  function AlertsAt(events: seq<Event>, i: nat, limits: Limits): seq<AlertKind>
    requires i < |events|
  {
    if events[i].Polled? then EvaluationOf(Run(events[..i], limits), events[i]).alerts else []
  }

  function SeverityOf(rec: MeterRecord): Severity {
    PreviousOf(RowOf("", DEFAULT_SETTINGS, rec)).severity
  }

  function CountSeverityAlerts(alerts: seq<AlertKind>): nat {
    if alerts == [] then 0
    else (if IsSeverityAlert(alerts[0]) then 1 else 0) + CountSeverityAlerts(alerts[1..])
  }

  function SeverityAlerts(events: seq<Event>, limits: Limits): nat {
    if events == [] then 0
    else SeverityAlerts(events[..|events| - 1], limits)
         + CountSeverityAlerts(AlertsAt(events, |events| - 1, limits))
  }

  /** A committed poll that reads a higher balance than the one stored. */
  predicate Rose(rec: MeterRecord, e: Event) {
    && e.Polled? && rec.state.Some? && rec.state.value.lastBalance.Some?
    && e.snapshot.balance > rec.state.value.lastBalance.value
  }

  function Rises(events: seq<Event>, limits: Limits): nat {
    if events == [] then 0
    else Rises(events[..|events| - 1], limits)
         + (if Rose(Run(events[..|events| - 1], limits), events[|events| - 1]) then 1 else 0)
  }

  ghost predicate ThresholdIs(events: seq<Event>, threshold: real) {
    forall e :: e in events && e.Polled? ==> e.settings.lowBalanceThreshold == threshold
  }

  /** A poll decides at most one severity alert, and only when the severity worsens. */
  lemma AtMostOneSeverityAlert(rec: MeterRecord, e: Event)
    requires e.Polled?
    ensures CountSeverityAlerts(EvaluationOf(rec, e).alerts)
         <= (if EvaluationOf(rec, e).severity.Rank() > SeverityOf(rec).Rank() then 1 else 0)
  {
    var alerts := EvaluationOf(rec, e).alerts;
    assert CountSeverityAlerts([]) == 0;
    if |alerts| == 2 {
      assert alerts[1..] == [alerts[1]] && alerts[1..][1..] == [];
    } else if |alerts| == 1 {
      assert alerts[1..] == [];
    }
  }

  /** The severity stored is the one its own last balance calls for. */
  ghost predicate SeverityFollows(rec: MeterRecord, threshold: real) {
    match rec.state
    case None => true
    case Some(st) =>
      if st.lastBalance.Some? then st.severity == SeverityFor(st.lastBalance.value, threshold) else st.severity == OK
  }

  lemma {:induction false} AlertPotential(events: seq<Event>, limits: Limits, threshold: real)
    requires ThresholdIs(events, threshold)
    ensures SeverityFollows(Run(events, limits), threshold)
    ensures SeverityAlerts(events, limits) <= SeverityOf(Run(events, limits)).Rank() + 2 * Rises(events, limits)
  {
    if events != [] {
      var n := |events| - 1;
      var e, rec := events[n], Run(events[..n], limits);
      AlertPotential(events[..n], limits, threshold);
      assert e in events;
      if e.Polled? {
        PollKeepsPotential(rec, e, limits, threshold);
      } else {
        QuietEventKeepsSeverity(rec, e, limits);
      }
    }
  }

  /** A poll pays for its alert with a worse severity, or with a rise of the balance since the last poll. */
  lemma PollKeepsPotential(rec: MeterRecord, e: Event, limits: Limits, threshold: real)
    requires e.Polled? && e.settings.lowBalanceThreshold == threshold && SeverityFollows(rec, threshold)
    ensures SeverityFollows(After(rec, e, limits), threshold)
    ensures CountSeverityAlerts(EvaluationOf(rec, e).alerts) + SeverityOf(rec).Rank()
         <= SeverityOf(After(rec, e, limits)).Rank() + (if Rose(rec, e) then 2 else 0)
  {
    PollStoresSeverity(rec, e, limits);
    AtMostOneSeverityAlert(rec, e);
    if !Rose(rec, e) && rec.state.Some? && rec.state.value.lastBalance.Some? {
      SeverityFallsWithBalance(e.snapshot.balance, rec.state.value.lastBalance.value, threshold);
    }
  }

  lemma PollStoresSeverity(rec: MeterRecord, e: Event, limits: Limits)
    requires e.Polled?
    ensures After(rec, e, limits).state.Some?
    ensures After(rec, e, limits).state.value.lastBalance == Some(e.snapshot.balance)
    ensures After(rec, e, limits).state.value.severity == SeverityFor(e.snapshot.balance, e.settings.lowBalanceThreshold)
    ensures SeverityOf(After(rec, e, limits)) == EvaluationOf(rec, e).severity
  {
    PollEffect(rec, e, limits);
  }

  lemma QuietEventKeepsSeverity(rec: MeterRecord, e: Event, limits: Limits)
    requires !e.Polled?
    ensures SeverityOf(After(rec, e, limits)) == SeverityOf(rec)
    ensures forall threshold :: SeverityFollows(rec, threshold) ==> SeverityFollows(After(rec, e, limits), threshold)
  {
    if rec.state.Some? {
      QuietEventsKeepReadings(rec, e, limits);
    }
  }

  /** Sitting below the threshold sends nothing more: with a fixed threshold the severity alerts of a whole history
      number at most two, plus two for each time the balance rose. */
  lemma SeverityAlertsBounded(events: seq<Event>, limits: Limits, threshold: real)
    requires ThresholdIs(events, threshold)
    ensures SeverityAlerts(events, limits) <= 2 * (1 + Rises(events, limits))
  {
    AlertPotential(events, limits, threshold);
  }

  /** What one more poll under the default settings adds to the counts. */
  lemma OnePollMore(events: seq<Event>, balance: real, limits: Limits)
    requires ThresholdIs(events, 100.0)
    ensures var rec, more := Run(events, limits), events + [PollOf(balance, None, 0)];
            && ThresholdIs(more, 100.0)
            && Run(more, limits).state.Some? && Run(more, limits).state.value.lastBalance == Some(balance)
            && SeverityOf(Run(more, limits)) == SeverityFor(balance, 100.0)
            && SeverityAlerts(more, limits) == SeverityAlerts(events, limits)
                 + (if SeverityFor(balance, 100.0).Rank() > SeverityOf(rec).Rank() then 1 else 0)
            && Rises(more, limits) == Rises(events, limits)
                 + (if rec.state.Some? && rec.state.value.lastBalance.Some? && balance > rec.state.value.lastBalance.value
                    then 1 else 0)
  {
    var e, rec := PollOf(balance, None, 0), Run(events, limits);
    RunOfOneMore(events, e, limits);
    PollEffect(rec, e, limits);
    assert (events + [e])[..|events|] == events;
    OnlySeverityAlert(rec, e);
  }

  lemma OnlySeverityAlert(rec: MeterRecord, e: Event)
    requires e.Polled? && e.settings == DEFAULT_SETTINGS && e.snapshot.recharges == []
    ensures CountSeverityAlerts(EvaluationOf(rec, e).alerts)
         == (if EvaluationOf(rec, e).severity.Rank() > SeverityOf(rec).Rank() then 1 else 0)
  {
  }

  /** The bound is the least one: for every number of rises some history reaches it. */
  lemma {:induction false} AlertBoundIsReached(n: nat, limits: Limits) returns (events: seq<Event>)
    ensures ThresholdIs(events, 100.0)
    ensures Rises(events, limits) == n && SeverityAlerts(events, limits) == 2 * (1 + n)
    ensures SeverityOf(Run(events, limits)) == DEPLETED
    ensures var rec := Run(events, limits); rec.state.Some? && rec.state.value.lastBalance == Some(0.0)
  {
    events := [];
    if n > 0 {
      events := AlertBoundIsReached(n - 1, limits);
      OnePollMore(events, 200.0, limits);
      events := events + [PollOf(200.0, None, 0)];
    }
    OnePollMore(events, 50.0, limits);
    events := events + [PollOf(50.0, None, 0)];
    OnePollMore(events, 0.0, limits);
    events := events + [PollOf(0.0, None, 0)];
  }

  // ---------------------------------------------------------------- what separates two alerts

  /** Whatever was decided since, a severity that is stored was read by a poll at or after `i`. */
  lemma {:induction false} StoredSeverityWasRead(events: seq<Event>, i: nat, limits: Limits) returns (m: nat)
    requires i < |events| && events[i].Polled?
    ensures i <= m < |events| && events[m].Polled?
    ensures SeverityOf(Run(events, limits)) == EvaluationOf(Run(events[..m], limits), events[m]).severity
  {
    var n := |events| - 1;
    if events[n].Polled? {
      m := n;
      PollStoresSeverity(Run(events[..n], limits), events[n], limits);
    } else {
      m := StoredSeverityWasRead(events[..n], i, limits);
      assert events[..n][..m] == events[..m];
      QuietEventKeepsSeverity(Run(events[..n], limits), events[n], limits);
    }
  }

  lemma SeverityBefore(events: seq<Event>, i: nat, j: nat, limits: Limits) returns (m: nat)
    requires i < j <= |events| && events[i].Polled?
    ensures i <= m < j && events[m].Polled?
    ensures SeverityOf(Run(events[..j], limits)) == EvaluationOf(Run(events[..m], limits), events[m]).severity
  {
    m := StoredSeverityWasRead(events[..j], i, limits);
    assert events[..j][..m] == events[..m];
  }

  lemma AlertTellsSeverity(rec: MeterRecord, e: Event, kind: AlertKind)
    requires e.Polled? && IsSeverityAlert(kind) && kind in EvaluationOf(rec, e).alerts
    ensures if kind == LowBalance then EvaluationOf(rec, e).severity == LOW && SeverityOf(rec) == OK
            else EvaluationOf(rec, e).severity == DEPLETED && SeverityOf(rec) != DEPLETED
  {
  }

  /** Between two low-balance alerts lies a poll that read the meter as fine; between two depletion alerts, one that
      read it as not depleted. Thresholds may change, and failed polls and lost pushes may lie anywhere. */
  lemma AlertsAreRearmed(events: seq<Event>, i: nat, j: nat, kind: AlertKind, limits: Limits) returns (m: nat)
    requires i < j < |events| && IsSeverityAlert(kind)
    requires kind in AlertsAt(events, i, limits) && kind in AlertsAt(events, j, limits)
    ensures i < m < j && events[m].Polled?
    ensures var read := EvaluationOf(Run(events[..m], limits), events[m]).severity;
            if kind == LowBalance then read == OK else read != DEPLETED
  {
    AlertTellsSeverity(Run(events[..i], limits), events[i], kind);
    AlertTellsSeverity(Run(events[..j], limits), events[j], kind);
    m := SeverityBefore(events, i, j, limits);
  }

  // ---------------------------------------------------------------- muting

  /** Two histories of the same readings and thresholds, which may differ in what the user mutes and in which pushes
      and anomaly checks happened to work. */
  ghost predicate SameReadings(a: seq<Event>, b: seq<Event>) {
    |a| == |b| && forall i :: 0 <= i < |a| ==> SameReading(a[i], b[i])
  }

  ghost predicate SameReading(a: Event, b: Event) {
    match (a, b)
    case (Polled(_, _, _, _, _), Polled(_, _, _, _, _)) =>
      a.snapshot == b.snapshot && a.settings.lowBalanceThreshold == b.settings.lowBalanceThreshold
    case (Polled(_, _, _, _, _), _) => false
    case (_, Polled(_, _, _, _, _)) => false
    case _ => true
  }

  function Remembered(rec: MeterRecord): PreviousState {
    PreviousOf(RowOf("", DEFAULT_SETTINGS, rec))
  }

  lemma QuietEventKeepsMemory(rec: MeterRecord, e: Event, limits: Limits)
    requires !e.Polled?
    ensures Remembered(After(rec, e, limits)) == Remembered(rec)
  {
  }

  /** What is remembered never depends on what was muted. */
  lemma {:induction false} MutingKeepsMemory(a: seq<Event>, b: seq<Event>, limits: Limits)
    requires SameReadings(a, b)
    ensures Remembered(Run(a, limits)) == Remembered(Run(b, limits))
  {
    if a != [] {
      var n := |a| - 1;
      var ra, rb := Run(a[..n], limits), Run(b[..n], limits);
      assert SameReading(a[n], b[n]);
      MutingKeepsMemory(a[..n], b[..n], limits);
      if a[n].Polled? {
        PollEffect(ra, a[n], limits);
        PollEffect(rb, b[n], limits);
      } else {
        QuietEventKeepsMemory(ra, a[n], limits);
        QuietEventKeepsMemory(rb, b[n], limits);
      }
    }
  }

  /** At each step a user hears exactly the alerts of the unmuted history that are enabled at that step:
      switching an alert back on never replays what happened while it was off. */
  lemma MutingNeverReplays(heard: seq<Event>, loud: seq<Event>, i: nat, limits: Limits)
    requires SameReadings(heard, loud) && i < |heard| && heard[i].Polled?
    requires forall e :: e in loud && e.Polled? ==> e.settings == Unmuted(e.settings)
    ensures AlertsAt(heard, i, limits) == OnlyEnabled(heard[i].settings, AlertsAt(loud, i, limits))
  {
    assert SameReading(heard[i], loud[i]) && loud[i] in loud;
    assert SameReadings(heard[..i], loud[..i]) by {
      assert forall k :: 0 <= k < i ==> SameReading(heard[k], loud[k]);
    }
    MutingKeepsMemory(heard[..i], loud[..i], limits);
    MutingOnlyFilters(Remembered(Run(heard[..i], limits)), heard[i].snapshot, heard[i].settings);
    LoudAlertsAgree(Remembered(Run(heard[..i], limits)), heard[i].snapshot, heard[i].settings, loud[i].settings);
  }

  lemma LoudAlertsAgree(previous: PreviousState, reading: Snapshot, a: Settings, b: Settings)
    requires a.lowBalanceThreshold == b.lowBalanceThreshold && b == Unmuted(b)
    ensures Evaluate(previous, reading, Unmuted(a)).alerts == Evaluate(previous, reading, b).alerts
  {
  }

  // ---------------------------------------------------------------- usage-anomaly notices

  function DecisionAt(rec: MeterRecord, e: Event): UsageAnomaly.Outcome
    requires e.Checked?
  {
    AnomalyDecision(RowOf("", e.settings, rec), rec.samples, e.now)
  }

  /** The Dhaka day an event announces, if it announces one. */
  function AnnouncedBy(rec: MeterRecord, e: Event): seq<int> {
    if e.Checked? && DecisionAt(rec, e).Anomaly? then [DecisionAt(rec, e).finding.day] else []
  }

  /** The Dhaka days announced over a history, in the order they were announced. */
  function Announced(events: seq<Event>, limits: Limits): seq<int> {
    if events == [] then []
    else Announced(events[..|events| - 1], limits)
         + AnnouncedBy(Run(events[..|events| - 1], limits), events[|events| - 1])
  }

  lemma {:induction false} DailyCostsWithin(rows: seq<Analytics.BucketRow>, meterCount: nat, days: seq<int>, last: int)
    requires meterCount > 0 && forall row :: row in rows ==> row.bucket <= last
    ensures forall d :: d in DailyCosts(Analytics.Points(rows, Analytics.Daily, meterCount, days)) ==> d.day <= last
  {
    if rows != [] {
      var n := |rows| - 1;
      DailyCostsWithin(rows[..n], meterCount, days, last);
      var before := Analytics.Points(rows[..n], Analytics.Daily, meterCount, days);
      var points := Analytics.Points(rows, Analytics.Daily, meterCount, days);
      assert points[..|points| - 1] == before;
      assert rows[n] in rows;
    }
  }

  lemma {:induction false} SelectedWithin(rows: seq<Analytics.SpreadRow>, days: seq<int>, least: int, greatest: int)
    ensures forall row :: row in Analytics.Select(rows, Analytics.Daily, days, least, greatest) ==> row.bucket <= greatest
    decreases greatest - least + 1
  {
    if least <= greatest {
      SelectedWithin(rows, days, least, greatest - 1);
    }
  }

  /** A finding is about one of the days of its series. */
  lemma FindingIsListed(days: seq<UsageAnomaly.DailyCost>, settings: Settings, last: Option<int>)
    requires UsageAnomaly.EvaluateUsageAnomaly(days, settings, last).Anomaly?
    ensures var day := UsageAnomaly.EvaluateUsageAnomaly(days, settings, last).finding.day;
            (exists d :: d in days && d.day == day) && (last.Some? ==> last.value < day)
  {
    var sorted := UsageAnomaly.SortByDay(days);
    UsageAnomaly.SortSorts(days);
    assert sorted[|sorted| - 1] in multiset(days);
  }

  /** A notice is about a complete day, and a later one than the last notice was about. */
  lemma NoticeIsNewAndComplete(rec: MeterRecord, e: Event)
    requires e.Checked? && (rec.state.None? ==> rec.samples == [])
    ensures DecisionAt(rec, e).Anomaly? ==>
              var day := DecisionAt(rec, e).finding.day;
              && day <= Analytics.DhakaDay(e.now) - 1
              && rec.state.Some?
              && (rec.state.value.lastAnomalyOn.Some? ==> rec.state.value.lastAnomalyOn.value < day)
  {
    if DecisionAt(rec, e).Anomaly? {
      AnnouncedIsNewAndComplete(rec, e);
    }
  }

  lemma AnnouncedIsNewAndComplete(rec: MeterRecord, e: Event)
    requires e.Checked? && DecisionAt(rec, e).Anomaly? && (rec.state.None? ==> rec.samples == [])
    ensures var day := DecisionAt(rec, e).finding.day;
            && day <= Analytics.DhakaDay(e.now) - 1
            && rec.state.Some?
            && (rec.state.value.lastAnomalyOn.Some? ==> rec.state.value.lastAnomalyOn.value < day)
  {
    var row := RowOf("", e.settings, rec);
    var yesterday := Analytics.DhakaDay(e.now) - 1;
    var range := Analytics.CalendarRange(yesterday - UsageAnomaly.ANOMALY_BASELINE_DAYS, yesterday);
    var rows := Analytics.Buckets([rec.samples], range, Analytics.Daily);
    SelectedWithin(Analytics.Spread(Analytics.Flatten([rec.samples]), range), range.days,
                   range.First(), range.Last());
    DailyCostsWithin(rows, 1, range.days, yesterday);
    FindingIsListed(DailyCosts(Analytics.Usage([rec.samples], range, Analytics.Daily)), row.settings, row.lastAnomalyOn);
    if rec.state.None? {
      NoSamplesNoSeries(range);
      assert false;
    }
  }

  lemma NoSamplesNoSeries(range: Analytics.DayRange)
    requires range.days != []
    ensures Analytics.Usage([[]], range, Analytics.Daily) == []
  {
    var none: seq<UsageSample> := [];
    assert [none][..0] == [] && Analytics.Flatten([]) == [];
    assert Analytics.Flatten([none]) == [] + none == [];
    NothingSelected(range.days, range.First(), range.Last());
  }

  lemma {:induction false} NothingSelected(days: seq<int>, least: int, greatest: int)
    ensures Analytics.Select([], Analytics.Daily, days, least, greatest) == []
    decreases greatest - least + 1
  {
    if least <= greatest {
      NothingSelected(days, least, greatest - 1);
    }
  }

  lemma {:induction false} NoStateNoSamples(events: seq<Event>, limits: Limits)
    ensures Run(events, limits).state.None? ==> Run(events, limits).samples == []
  {
    if events != [] {
      var n := |events| - 1;
      NoStateNoSamples(events[..n], limits);
      if events[n].Polled? {
        PollEffect(Run(events[..n], limits), events[n], limits);
      } else {
        QuietEventsKeepReadings(Run(events[..n], limits), events[n], limits);
      }
    }
  }

  ghost predicate StrictlyIncreasing(days: seq<int>) {
    forall i, j :: 0 <= i < j < |days| ==> days[i] < days[j]
  }

  ghost predicate MarkerIsLast(rec: MeterRecord, days: seq<int>) {
    if days == [] then rec.state.Some? ==> rec.state.value.lastAnomalyOn.None?
    else rec.state.Some? && rec.state.value.lastAnomalyOn == Some(days[|days| - 1])
  }

  /** Only an announcement moves the marker. */
  lemma MarkerMoves(rec: MeterRecord, e: Event, days: seq<int>, limits: Limits)
    requires MarkerIsLast(rec, days)
    ensures AnnouncedBy(rec, e) != [] && rec.state.Some? ==>
              MarkerIsLast(After(rec, e, limits), days + AnnouncedBy(rec, e))
    ensures AnnouncedBy(rec, e) == [] ==> MarkerIsLast(After(rec, e, limits), days)
  {
    if e.Polled? {
      PollEffect(rec, e, limits);
    }
  }

  lemma AnnouncementExtends(rec: MeterRecord, e: Event, days: seq<int>, limits: Limits)
    requires MarkerIsLast(rec, days) && StrictlyIncreasing(days)
    requires rec.state.None? ==> rec.samples == []
    ensures MarkerIsLast(After(rec, e, limits), days + AnnouncedBy(rec, e))
    ensures StrictlyIncreasing(days + AnnouncedBy(rec, e))
  {
    var more := AnnouncedBy(rec, e);
    MarkerMoves(rec, e, days, limits);
    if more == [] {
      assert days + more == days;
    } else {
      NoticeIsNewAndComplete(rec, e);
      LaterDayExtends(days, more[0]);
    }
  }

  lemma LaterDayExtends(days: seq<int>, day: int)
    requires StrictlyIncreasing(days) && (days != [] ==> days[|days| - 1] < day)
    ensures StrictlyIncreasing(days + [day])
  {
  }

  /** Each day is announced at most once and in order, and the marker stored is the last day announced. */
  lemma {:induction false} DaysAreAnnouncedOnce(events: seq<Event>, limits: Limits)
    ensures StrictlyIncreasing(Announced(events, limits))
    ensures MarkerIsLast(Run(events, limits), Announced(events, limits))
  {
    if events != [] {
      var n := |events| - 1;
      DaysAreAnnouncedOnce(events[..n], limits);
      NoStateNoSamples(events[..n], limits);
      AnnouncementExtends(Run(events[..n], limits), events[n], Announced(events[..n], limits), limits);
    }
  }
}
