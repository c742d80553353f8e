/** One poll as the service runs it, taken apart into the database steps other polls may come between. */
module PollScript {
  import opened Prelude
  import opened Portal
  import opened UsageSampling
  import opened AlertEvaluation
  import opened MeterPoll
  import opened BalanceSweep

  /** Which step of the usage-anomaly check throws, if any does. */
  datatype NoticeFault = NoFault | QueryThrows | MarkThrows | PushThrows

  /** Everything the outside world decides about one poll. */
  datatype PollInput = PollInput(
    scrape: Result<Snapshot, string>,
    now: int,
    commitError: Option<string>,
    lostPush: Option<nat>,
    notice: NoticeFault,
    checkedAt: int,
    failedAt: int,
    recordThrows: bool)       // a failure of this poll cannot be recorded

  // ---------------------------------------------------------------- the steps

  /** A failure is recorded; if even that throws, the poll throws. */
  function FailedEffect(rec: MeterRecord, reason: string, inp: PollInput): Effect {
    if inp.recordThrows then Stop(rec, Threw) else Stop(RecordFailure(rec, reason, inp.failedAt), Failed)
  }

  function FailStep(reason: string, inp: PollInput): Atomic {
    (rec: MeterRecord) => FailedEffect(rec, reason, inp)
  }

  function CommitStep(row: MonitoredMeter, evaluation: Evaluation, snapshot: Snapshot, now: int, limits: Limits): Atomic {
    (rec: MeterRecord) => Next(RecordSuccess(rec, row, evaluation, snapshot, now, limits))
  }

  /** Pushes `k` onwards of `n`; a push writes nothing to the meter's tables unless it throws. */
  function PushSteps(n: nat, k: nat, inp: PollInput): seq<Atomic>
    decreases n - k
  {
    if k >= n then []
    else if inp.lostPush == Some(k) then [FailStep("push failed", inp)]
    else [(rec: MeterRecord) => Next(rec)] + PushSteps(n, k + 1, inp)
  }

  /** The usage-anomaly check on its own error boundary: a throw counts as no alert. */
  function CheckedEffect(rec: MeterRecord, decided: nat, row: MonitoredMeter, inp: PollInput): Effect {
    var decision := AnomalyDecision(row, rec.samples, inp.checkedAt);
    if inp.notice == QueryThrows || !decision.Anomaly? || inp.notice == MarkThrows then Stop(rec, Sent(decided))
    else Stop(MarkAnomaly(rec, decision), Sent(if inp.notice == PushThrows then decided else decided + 1))
  }

  function CheckStep(decided: nat, row: MonitoredMeter, inp: PollInput): Atomic {
    (rec: MeterRecord) => CheckedEffect(rec, decided, row, inp)
  }

  function Script(row: MonitoredMeter, inp: PollInput, limits: Limits): seq<Atomic> {
    match inp.scrape
    case Err(reason) => [FailStep(reason, inp)]
    case Ok(snapshot) =>
      if inp.commitError.Some? then [FailStep(inp.commitError.value, inp)]
      else
        var evaluation := Evaluate(PreviousOf(row), snapshot, row.settings);
        [CommitStep(row, evaluation, snapshot, inp.now, limits)]
        + (PushSteps(|evaluation.alerts|, 0, inp) + [CheckStep(|evaluation.alerts|, row, inp)])
  }

  function AsPoll(row: MonitoredMeter, inp: PollInput, limits: Limits): Poll {
    Poll(row.meterId, Script(row, inp, limits))
  }

  // ---------------------------------------------------------------- the steps taken without a pause

  lemma FinishOneStep(rec: MeterRecord, first: Atomic, rest: seq<Atomic>)
    ensures Finish(PollState(rec, Running([first] + rest)))
         == match first(rec)
            case Next(next) => Finish(PollState(next, Running(rest)))
            case Stop(last, outcome) => Ended(last, outcome)
  {
    assert ([first] + rest)[1..] == rest;
  }

  lemma FinishLastStep(rec: MeterRecord, step: Atomic)
    requires step(rec).Stop?
    ensures Finish(PollState(rec, Running([step]))) == Ended(step(rec).rec, step(rec).outcome)
  {
    FinishOneStep(rec, step, []);
    assert [step] + [] == [step];
  }

  lemma {:induction false} FinishPushes(rec: MeterRecord, n: nat, k: nat, inp: PollInput, check: Atomic)
    requires k <= n
    ensures Finish(PollState(rec, Running(PushSteps(n, k, inp) + [check])))
         == if inp.lostPush.Some? && k <= inp.lostPush.value < n
            then Ended(FailedEffect(rec, "push failed", inp).rec, FailedEffect(rec, "push failed", inp).outcome)
            else Finish(PollState(rec, Running([check])))
    decreases n - k
  {
    if k == n {
      assert PushSteps(n, k, inp) + [check] == [check];
    } else if inp.lostPush == Some(k) {
      FinishOneStep(rec, FailStep("push failed", inp), [check]);
    } else {
      assert PushSteps(n, k, inp) + [check] == [PushSteps(n, k, inp)[0]] + (PushSteps(n, k + 1, inp) + [check]);
      FinishOneStep(rec, PushSteps(n, k, inp)[0], PushSteps(n, k + 1, inp) + [check]);
      FinishPushes(rec, n, k + 1, inp, check);
    }
  }

  /** What follows the commit: a push that throws makes the poll a failure, otherwise the check has the last word. */
  function AfterCommit(saved: MeterRecord, alerts: nat, row: MonitoredMeter, inp: PollInput): (e: Effect)
    ensures e.Stop?
  {
    if inp.lostPush.Some? && inp.lostPush.value < alerts then FailedEffect(saved, "push failed", inp)
    else CheckedEffect(saved, alerts, row, inp)
  }

  /** How a poll ends that nothing interrupts. */
  function Whole(rec: MeterRecord, row: MonitoredMeter, inp: PollInput, limits: Limits): (e: Effect)
    ensures e.Stop?
  {
    match inp.scrape
    case Err(reason) => FailedEffect(rec, reason, inp)
    case Ok(snapshot) =>
      if inp.commitError.Some? then FailedEffect(rec, inp.commitError.value, inp)
      else
        var evaluation := Evaluate(PreviousOf(row), snapshot, row.settings);
        AfterCommit(RecordSuccess(rec, row, evaluation, snapshot, inp.now, limits), |evaluation.alerts|, row, inp)
  }

  lemma FinishAfterCommit(saved: MeterRecord, alerts: nat, row: MonitoredMeter, inp: PollInput)
    ensures var e := AfterCommit(saved, alerts, row, inp);
            Finish(PollState(saved, Running(PushSteps(alerts, 0, inp) + [CheckStep(alerts, row, inp)])))
              == Ended(e.rec, e.outcome)
  {
    FinishPushes(saved, alerts, 0, inp, CheckStep(alerts, row, inp));
    FinishLastStep(saved, CheckStep(alerts, row, inp));
  }

  /** The steps of a poll, taken without a pause, are record, then push, then look for an anomaly. */
  lemma ScriptEndsAsWritten(rec: MeterRecord, row: MonitoredMeter, inp: PollInput, limits: Limits)
    ensures var e := Whole(rec, row, inp, limits);
            Finish(PollState(rec, Running(Script(row, inp, limits)))) == Ended(e.rec, e.outcome)
  {
    if inp.scrape.Err? {
      FinishLastStep(rec, FailStep(inp.scrape.error, inp));
    } else if inp.commitError.Some? {
      FinishLastStep(rec, FailStep(inp.commitError.value, inp));
    } else {
      var evaluation := Evaluate(PreviousOf(row), inp.scrape.value, row.settings);
      var n, commit := |evaluation.alerts|, CommitStep(row, evaluation, inp.scrape.value, inp.now, limits);
      FinishOneStep(rec, commit, PushSteps(n, 0, inp) + [CheckStep(n, row, inp)]);
      FinishAfterCommit(RecordSuccess(rec, row, evaluation, inp.scrape.value, inp.now, limits), n, row, inp);
    }
  }
}
