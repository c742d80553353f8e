/** What one poll does to the two tables kept for a meter: its alert state and its usage samples. */
module MeterPoll {
  import opened Prelude
  import opened Portal
  import opened UsageSampling
  import opened AlertEvaluation
  import Analytics
  import UsageAnomaly

  /** A row of `meter_alert_state`. Days are Dhaka days counted from 1970-01-01. */
  datatype AlertState = AlertState(
    severity: Severity,
    lastRechargeToken: Option<string>,
    lastBalance: Option<real>,
    lastBalanceAt: Option<int>,
    lastAnomalyOn: Option<int>,
    lastCheckedAt: int,
    lastFailureReason: Option<string>,
    consecutiveFailures: nat)

  /** Everything stored about one meter; samples are in the order they were inserted. */
  datatype MeterRecord = MeterRecord(state: Option<AlertState>, samples: seq<UsageSample>)

  const UNSEEN := MeterRecord(None, [])

  /** What the sweep reads about a meter before polling it. */
  datatype MonitoredMeter = MonitoredMeter(
    meterId: string,
    settings: Settings,
    severity: Option<Severity>,
    lastRechargeToken: Option<string>,
    lastBalance: Option<real>,
    lastBalanceAt: Option<int>,
    lastAnomalyOn: Option<int>)

  /** The left join of a meter with its alert state. */
  function RowOf(meterId: string, settings: Settings, rec: MeterRecord): MonitoredMeter {
    match rec.state
    case None => MonitoredMeter(meterId, settings, None, None, None, None, None)
    case Some(st) =>
      MonitoredMeter(meterId, settings, Some(st.severity), st.lastRechargeToken,
                     st.lastBalance, st.lastBalanceAt, st.lastAnomalyOn)
  }

  function PreviousOf(row: MonitoredMeter): PreviousState {
    if row.severity.Some? then PreviousState(row.severity.value, row.lastRechargeToken) else INITIAL_STATE
  }

  function BuildSample(row: MonitoredMeter, snapshot: Snapshot, readingAt: int, limits: Limits): Option<UsageSample> {
    if row.lastBalance.None? || row.lastBalanceAt.None? then None
    else BuildUsageSample(row.lastBalance.value, snapshot.balance, row.lastBalanceAt.value, readingAt,
                          snapshot.recharges, limits)
  }

  predicate HasWindow(samples: seq<UsageSample>, windowStart: int) {
    exists i :: 0 <= i < |samples| && samples[i].windowStart == windowStart
  }

  /** Insert with `ON CONFLICT DO NOTHING`; the key of a meter's sample is its window start. */
  function InsertSample(samples: seq<UsageSample>, sample: Option<UsageSample>): seq<UsageSample> {
    if sample.None? || HasWindow(samples, sample.value.windowStart) then samples else samples + [sample.value]
  }

  /** Insert-or-update of the alert state after a successful poll; `lastAnomalyOn` is not among the columns set. */
  function SucceededState(stored: Option<AlertState>, evaluation: Evaluation, snapshot: Snapshot,
                          at: int, now: int): AlertState
  {
    AlertState(evaluation.severity, evaluation.lastRechargeToken, Some(snapshot.balance), Some(at),
               if stored.Some? then stored.value.lastAnomalyOn else None, now, None, 0)
  }

  /** The one transaction of a successful poll. */
  function RecordSuccess(rec: MeterRecord, row: MonitoredMeter, evaluation: Evaluation, snapshot: Snapshot,
                         now: int, limits: Limits): MeterRecord
  {
    var at := ResolveReadingInstant(snapshot.balanceAsOf, now).at;
    MeterRecord(Some(SucceededState(rec.state, evaluation, snapshot, at, now)),
                InsertSample(rec.samples, BuildSample(row, snapshot, at, limits)))
  }

  /** A failed poll counts itself and leaves severity, balance and the open window alone. */
  function RecordFailure(rec: MeterRecord, reason: string, now: int): MeterRecord {
    match rec.state
    case None => rec.(state := Some(AlertState(OK, None, None, None, None, now, Some(reason), 1)))
    case Some(st) =>
      rec.(state := Some(st.(lastCheckedAt := now, lastFailureReason := Some(reason),
                             consecutiveFailures := st.consecutiveFailures + 1)))
  }

  function DailyCosts(points: seq<Analytics.Point>): seq<UsageAnomaly.DailyCost> {
    if points == [] then []
    else DailyCosts(points[..|points| - 1])
         + [UsageAnomaly.DailyCost(points[|points| - 1].key, points[|points| - 1].consumedCost)]
  }

  /** The notice decision: the last complete Dhaka days of this one meter, read back from its samples. */
  function AnomalyDecision(row: MonitoredMeter, samples: seq<UsageSample>, now: int): UsageAnomaly.Outcome {
    if !row.settings.pushEnabled || !row.settings.usageAnomalyAlerts then UsageAnomaly.Quiet(UsageAnomaly.Disabled)
    else
      var yesterday := Analytics.DhakaDay(now) - 1;
      if row.lastAnomalyOn.Some? && row.lastAnomalyOn.value >= yesterday
      then UsageAnomaly.Quiet(UsageAnomaly.AlreadyReported)
      else
        var range := Analytics.CalendarRange(yesterday - UsageAnomaly.ANOMALY_BASELINE_DAYS, yesterday);
        UsageAnomaly.EvaluateUsageAnomaly(
          DailyCosts(Analytics.Usage([samples], range, Analytics.Daily)), row.settings, row.lastAnomalyOn)
  }

  /** The marker is stored before the notice is pushed. */
  function MarkAnomaly(rec: MeterRecord, outcome: UsageAnomaly.Outcome): MeterRecord {
    if outcome.Anomaly? && rec.state.Some?
    then rec.(state := Some(rec.state.value.(lastAnomalyOn := Some(outcome.finding.day))))
    else rec
  }
}
