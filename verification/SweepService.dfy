/** The sweep as the service runs it: a field for the tables, a loop over batches, and polls that interleave. */
module SweepService {
  import opened Prelude
  import opened UsageSampling
  import opened AlertEvaluation
  import opened MeterPoll
  import opened MeterHistory
  import opened BalanceSweep
  import opened PollScript
  import opened SweepHistory

  datatype SweepSummary = SweepSummary(checked: nat, failed: nat, alertsSent: nat, skipped: bool)

  const IDLE := SweepSummary(0, 0, 0, true)

  lemma BegunBatch(db: Database, polls: seq<Poll>, progress: map<string, Progress>)
    requires DistinctMeters(polls)
    requires forall i :: 0 <= i < |polls| ==>
               polls[i].meterId in progress && progress[polls[i].meterId] == Running(polls[i].script)
    ensures Interleaved(db, db, polls, progress)
  {
  }

  /** The tables and the counts after polling the first `n` meters one by one, none of which threw. */
  ghost predicate SweptTo(start: Database, db: Database, polls: seq<Poll>, n: nat, failed: nat, alertsSent: nat)
    requires n <= |polls|
  {
    && db == OneByOne(start, polls[..n])
    && NoneThrew(OutcomesOneByOne(start, polls[..n]))
    && failed == Failures(OutcomesOneByOne(start, polls[..n]))
    && alertsSent == AlertsSent(OutcomesOneByOne(start, polls[..n]))
  }

  /** A sweep after `n` meters, with nothing yet to stop it. */
  ghost predicate OnTrack(start: Database, db: Database, polls: seq<Poll>, concurrency: nat, n: nat, failed: nat, sent: nat)
    requires concurrency >= 1 && n <= |polls|
  {
    && SweptTo(start, db, polls, n, failed, sent)
    && Begun(OutcomesOneByOne(start, polls), concurrency, n) == Begun(OutcomesOneByOne(start, polls), concurrency, 0)
  }

  /** Polling the next batch after the meters before it is polling them all up to its end. */
  lemma OneBatchMore(start: Database, polls: seq<Poll>, i: nat, end: nat)
    requires i <= end <= |polls|
    ensures OneByOne(OneByOne(start, polls[..i]), polls[i..end]) == OneByOne(start, polls[..end])
    ensures var earlier, outcomes := OutcomesOneByOne(start, polls[..i]),
                                     OutcomesOneByOne(OneByOne(start, polls[..i]), polls[i..end]);
            && OutcomesOneByOne(start, polls[..end]) == earlier + outcomes
            && Failures(OutcomesOneByOne(start, polls[..end])) == Failures(earlier) + Failures(outcomes)
            && AlertsSent(OutcomesOneByOne(start, polls[..end])) == AlertsSent(earlier) + AlertsSent(outcomes)
  {
    assert polls[..i] + polls[i..end] == polls[..end];
    OneByOneConcat(start, polls[..i], polls[i..end]);
    CountsConcat(OutcomesOneByOne(start, polls[..i]), OutcomesOneByOne(OneByOne(start, polls[..i]), polls[i..end]));
  }

  lemma DistinctVisitsPollDistinctMeters(db: Database, visits: seq<Visit>, limits: Limits)
    requires DistinctVisits(visits)
    ensures DistinctMeters(PollsOf(db, visits, limits))
  {
  }

  /** The batch a thrown sweep leaves under way: `polls[done..begun]`, each as far as `progress` says. */
  datatype Adrift = Adrift(done: nat, begun: nat, progress: map<string, Progress>)

  /** A sweep that threw: the batches before `done` are over, those from `begun` on were never begun, and the batch in
      between, one poll of which has thrown, is part-way through some interleaving of its polls. */
  ghost predicate ThrownIn(start: Database, db: Database, polls: seq<Poll>, concurrency: nat, adrift: Adrift)
    requires concurrency >= 1
  {
    && !NoneThrew(OutcomesOneByOne(start, polls))
    && adrift.done < adrift.begun <= |polls|
    && adrift.begun == Begun(OutcomesOneByOne(start, polls), concurrency, 0)
    && NoneThrew(OutcomesOneByOne(start, polls[..adrift.done]))
    && Interleaved(OneByOne(start, polls[..adrift.done]), db, polls[adrift.done..adrift.begun], adrift.progress)
    && SomeThrew(polls[adrift.done..adrift.begun], adrift.progress)
  }

  lemma OutcomeInBatch(start: Database, base: Database, polls: seq<Poll>, batch: seq<Poll>, i: nat, end: nat, j: nat)
    requires i <= end <= |polls| && batch == polls[i..end] && base == OneByOne(start, polls[..i]) && j < |batch|
    ensures OutcomesOneByOne(base, batch)[j] == OutcomesOneByOne(start, polls)[i + j]
  {
    OutcomesOfABatch(start, polls, i, end);
    assert OutcomesOneByOne(start, polls)[i..end][j] == OutcomesOneByOne(start, polls)[i + j];
  }

  lemma ThrowerInBatch(base: Database, db: Database, batch: seq<Poll>, progress: map<string, Progress>) returns (j: nat)
    requires DistinctMeters(batch) && Interleaved(base, db, batch, progress) && SomeThrew(batch, progress)
    ensures j < |batch| && OutcomesOneByOne(base, batch)[j].Threw?
  {
    j :| 0 <= j < |batch| && progress[batch[j].meterId] == Done(Threw);
    EndedAsAlone(base, db, batch, progress, j);
  }

  lemma DistinctInBatch(polls: seq<Poll>, i: nat, end: nat)
    requires DistinctMeters(polls) && i <= end <= |polls|
    ensures DistinctMeters(polls[i..end])
  {
  }

  lemma GivesUpInBatch(start: Database, base: Database, polls: seq<Poll>, batch: seq<Poll>,
                       concurrency: nat, i: nat, end: nat, j: nat)
    requires concurrency >= 1 && i < |polls| && end == Min(i + concurrency, |polls|)
    requires batch == polls[i..end] && base == OneByOne(start, polls[..i])
    requires j < |batch| && OutcomesOneByOne(base, batch)[j].Threw?
    ensures Begun(OutcomesOneByOne(start, polls), concurrency, i) == end
    ensures !NoneThrew(OutcomesOneByOne(start, polls))
  {
    OutcomeInBatch(start, base, polls, batch, i, end, j);
    BegunAtThrower(OutcomesOneByOne(start, polls), concurrency, i, i + j);
  }

  /** A batch in which a poll throws is the one the sweep gives up in. */
  lemma ThrowingBatch(start: Database, base: Database, db: Database, polls: seq<Poll>, batch: seq<Poll>,
                      concurrency: nat, i: nat, end: nat, progress: map<string, Progress>)
    requires concurrency >= 1 && i < |polls| && end == Min(i + concurrency, |polls|)
    requires batch == polls[i..end] && base == OneByOne(start, polls[..i])
    requires DistinctMeters(batch) && Interleaved(base, db, batch, progress) && SomeThrew(batch, progress)
    requires NoneThrew(OutcomesOneByOne(start, polls[..i]))
    requires Begun(OutcomesOneByOne(start, polls), concurrency, i) == Begun(OutcomesOneByOne(start, polls), concurrency, 0)
    ensures ThrownIn(start, db, polls, concurrency, Adrift(i, end, progress))
  {
    var j := ThrowerInBatch(base, db, batch, progress);
    GivesUpInBatch(start, base, polls, batch, concurrency, i, end, j);
  }

  lemma NoneThrewConcat(a: seq<Outcome>, b: seq<Outcome>)
    requires NoneThrew(a) && NoneThrew(b)
    ensures NoneThrew(a + b)
  {
  }

  /** A batch none of whose polls throws leaves the sweep on track. */
  lemma QuietBatch(start: Database, base: Database, db: Database, polls: seq<Poll>, batch: seq<Poll>,
                   concurrency: nat, i: nat, end: nat, outcomes: seq<Outcome>, failed: nat, sent: nat)
    requires concurrency >= 1 && i < |polls| && end == Min(i + concurrency, |polls|)
    requires batch == polls[i..end] && OnTrack(start, base, polls, concurrency, i, failed, sent)
    requires db == OneByOne(base, batch) && outcomes == OutcomesOneByOne(base, batch) && NoneThrew(outcomes)
    ensures OnTrack(start, db, polls, concurrency, end, failed + Failures(outcomes), sent + AlertsSent(outcomes))
  {
    OutcomesOfABatch(start, polls, i, end);
    OneBatchMore(start, polls, i, end);
    NoneThrewConcat(OutcomesOneByOne(start, polls[..i]), outcomes);
    BegunPastBatch(OutcomesOneByOne(start, polls), concurrency, i);
  }

  /** A poll that was recorded as a failure leaves a count of failures, and one that was not clears it. */
  lemma OutcomeShowsInTheCount(rec: MeterRecord, row: MonitoredMeter, inp: PollInput, limits: Limits)
    ensures var e := Whole(rec, row, inp, limits);
            && (e.outcome.Failed? ==> e.rec.state.Some? && e.rec.state.value.consecutiveFailures > 0)
            && (e.outcome.Sent? ==> e.rec.state.Some? && e.rec.state.value.consecutiveFailures == 0)
  {
  }

  class BalanceSweepService {
    var running: bool
    var db: Database
    const limits: Limits

    constructor (limits: Limits)
      ensures !running && db == map[] && this.limits == limits
    {
      this.running := false;
      this.db := map[];
      this.limits := limits;
    }

    /** One poll of a meter with a history, in the shape the service writes it: record, then push, then look for an
        anomaly. It lengthens that history by its own events and touches no other meter. */
    method PollMeter(row: MonitoredMeter, inp: PollInput, ghost events: seq<Event>) returns (outcome: Outcome)
      requires RecordOf(db, row.meterId) == Run(events, limits)
      requires row == RowOf(row.meterId, row.settings, Run(events, limits))
      modifies this`db
      ensures var more := EventsOf(Run(events, limits), row.settings, inp);
              && db == old(db)[row.meterId := Run(events + more, limits)]
              && (outcome.Failed? ==> FailuresInARow(events + more, limits) > 0)
              && (outcome.Sent? ==> FailuresInARow(events + more, limits) == 0)
      ensures outcome == PollAlone(old(db), AsPoll(row, inp, limits)).outcome
    {
      PollLengthensHistory(row, inp, events);
      outcome := RecordPushCheck(row, inp);
    }

    lemma PollLengthensHistory(row: MonitoredMeter, inp: PollInput, events: seq<Event>)
      requires RecordOf(db, row.meterId) == Run(events, limits)
      requires row == RowOf(row.meterId, row.settings, Run(events, limits))
      ensures var more, e := EventsOf(Run(events, limits), row.settings, inp),
                             Whole(Run(events, limits), row, inp, limits);
              && e.rec == Run(events + more, limits)
              && e.outcome == PollAlone(db, AsPoll(row, inp, limits)).outcome
              && (e.outcome.Failed? ==> FailuresInARow(events + more, limits) > 0)
              && (e.outcome.Sent? ==> FailuresInARow(events + more, limits) == 0)
    {
      var more := EventsOf(Run(events, limits), row.settings, inp);
      ScriptEndsAsWritten(Run(events, limits), row, inp, limits);
      PollIsItsEvents(Run(events, limits), row.meterId, row.settings, inp, limits);
      RunOfMore(events, more, limits);
      FailuresAreCounted(events + more, limits);
      OutcomeShowsInTheCount(Run(events, limits), row, inp, limits);
    }

    method RecordPushCheck(row: MonitoredMeter, inp: PollInput) returns (outcome: Outcome)
      modifies this`db
      ensures var e := Whole(RecordOf(old(db), row.meterId), row, inp, limits);
              db == old(db)[row.meterId := e.rec] && outcome == e.outcome
    {
      var rec := RecordOf(db, row.meterId);
      if inp.scrape.Err? {
        outcome := RecordFailed(row.meterId, rec, inp.scrape.error, inp);
        return;
      }
      var snapshot := inp.scrape.value;
      var evaluation := Evaluate(PreviousOf(row), snapshot, row.settings);
      if inp.commitError.Some? {
        outcome := RecordFailed(row.meterId, rec, inp.commitError.value, inp);
        return;
      }
      var saved := RecordSuccess(rec, row, evaluation, snapshot, inp.now, limits);
      db := db[row.meterId := saved];
      outcome := PushAndCheck(row, saved, |evaluation.alerts|, inp);
    }

    /** What follows the commit. */
    method PushAndCheck(row: MonitoredMeter, saved: MeterRecord, alerts: nat, inp: PollInput) returns (outcome: Outcome)
      modifies this`db
      ensures var e := AfterCommit(saved, alerts, row, inp);
              db == old(db)[row.meterId := e.rec] && outcome == e.outcome
    {
      var sent := PushAlerts(alerts, inp.lostPush);
      if sent < alerts {
        outcome := RecordFailed(row.meterId, saved, "push failed", inp);
        return;
      }
      var checked := CheckedEffect(saved, alerts, row, inp);
      db := db[row.meterId := checked.rec];
      return checked.outcome;
    }

    method RecordFailed(id: string, rec: MeterRecord, reason: string, inp: PollInput) returns (outcome: Outcome)
      modifies this`db
      ensures var e := FailedEffect(rec, reason, inp);
              db == old(db)[id := e.rec] && outcome == e.outcome
    {
      if inp.recordThrows {
        db := db[id := rec];
        return Threw;
      }
      db := db[id := RecordFailure(rec, reason, inp.failedAt)];
      return Failed;
    }

    /** Sends the alerts decided one after another, up to the first push that throws. */
    method PushAlerts(alerts: nat, lostPush: Option<nat>) returns (sent: nat)
      ensures sent == if lostPush.Some? && lostPush.value < alerts then lostPush.value else alerts
    {
      sent := 0;
      while sent < alerts
        invariant sent <= alerts && (lostPush.Some? ==> sent <= lostPush.value)
      {
        if lostPush == Some(sent) { return; }
        sent := sent + 1;
      }
    }

    /** The polls of a batch run concurrently: as long as one is unfinished, any unfinished one takes its next
        database step. Whatever order that is, a batch in which none throws ends as if its meters had been polled one by
        one; once one throws the batch is given up with the others wherever they are. */
    method PollBatch(polls: seq<Poll>) returns (outcomes: Option<seq<Outcome>>, progress: map<string, Progress>)
      requires DistinctMeters(polls)
      modifies this`db
      ensures Interleaved(old(db), db, polls, progress)
      ensures outcomes.Some? ==>
                && db == OneByOne(old(db), polls)
                && outcomes.value == OutcomesOneByOne(old(db), polls) && NoneThrew(outcomes.value)
      ensures outcomes.None? ==> SomeThrew(polls, progress)
    {
      ghost var start := db;
      progress := Begin(polls);
      BegunBatch(db, polls, progress);
      while !SomeThrew(polls, progress) && exists i :: 0 <= i < |polls| && !progress[polls[i].meterId].Done?
        invariant Interleaved(start, db, polls, progress)
        decreases TotalRemaining(polls, progress)
      {
        var i :| 0 <= i < |polls| && !progress[polls[i].meterId].Done?;
        progress := Advance(start, polls, progress, i);
      }
      if SomeThrew(polls, progress) { return None, progress; }
      assert forall poll :: poll in polls ==> progress[poll.meterId].Done?;
      SettledBatch(start, db, polls, progress);
      var collected := Collect(polls, progress);
      return Some(collected), progress;
    }

    /** The polls a thrown sweep left under way go on in the background; however they do, they end as they would have
        one by one. */
    method RunOut(ghost start: Database, polls: seq<Poll>, adrift: map<string, Progress>)
      requires DistinctMeters(polls) && Interleaved(start, db, polls, adrift)
      modifies this`db
      ensures db == OneByOne(start, polls)
    {
      var progress := adrift;
      while exists i :: 0 <= i < |polls| && !progress[polls[i].meterId].Done?
        invariant Interleaved(start, db, polls, progress)
        decreases TotalRemaining(polls, progress)
      {
        var i :| 0 <= i < |polls| && !progress[polls[i].meterId].Done?;
        progress := Advance(start, polls, progress, i);
      }
      SettledBatch(start, db, polls, progress);
    }

    method Begin(polls: seq<Poll>) returns (progress: map<string, Progress>)
      requires DistinctMeters(polls)
      ensures forall i :: 0 <= i < |polls| ==>
                polls[i].meterId in progress && progress[polls[i].meterId] == Running(polls[i].script)
    {
      progress := map[];
      for i := 0 to |polls|
        invariant forall k :: 0 <= k < i ==>
                    polls[k].meterId in progress && progress[polls[k].meterId] == Running(polls[k].script)
      {
        progress := progress[polls[i].meterId := Running(polls[i].script)];
      }
    }

    /** One database step of poll `i`. */
    method Advance(ghost start: Database, polls: seq<Poll>, progress: map<string, Progress>, i: nat)
      returns (next: map<string, Progress>)
      requires DistinctMeters(polls) && Interleaved(start, db, polls, progress)
      requires i < |polls| && polls[i].meterId in progress && !progress[polls[i].meterId].Done?
      modifies this`db
      ensures Interleaved(start, db, polls, next)
      ensures TotalRemaining(polls, next) < TotalRemaining(polls, progress)
    {
      var id := polls[i].meterId;
      StepKeepsCourse(start, db, polls, progress, i);
      var s := Step(PollState(RecordOf(db, id), progress[id]));
      db := db[id := s.rec];
      next := progress[id := s.progress];
    }

    method Collect(polls: seq<Poll>, progress: map<string, Progress>) returns (outcomes: seq<Outcome>)
      requires forall poll :: poll in polls ==> poll.meterId in progress && progress[poll.meterId].Done?
      ensures |outcomes| == |polls|
      ensures forall i :: 0 <= i < |polls| ==> outcomes[i] == progress[polls[i].meterId].outcome
    {
      outcomes := [];
      for i := 0 to |polls|
        invariant |outcomes| == i
        invariant forall k :: 0 <= k < i ==> outcomes[k] == progress[polls[k].meterId].outcome
      {
        assert polls[i] in polls;
        outcomes := outcomes + [progress[polls[i].meterId].outcome];
      }
    }

    /** Adds a batch's outcomes to the running counts. */
    method Tally(outcomes: seq<Outcome>, failed0: nat, sent0: nat) returns (failed: nat, alertsSent: nat)
      requires NoneThrew(outcomes)
      ensures failed == failed0 + Failures(outcomes)
      ensures alertsSent == sent0 + AlertsSent(outcomes)
    {
      failed, alertsSent := failed0, sent0;
      for k := 0 to |outcomes|
        invariant failed == failed0 + Failures(outcomes[..k])
        invariant alertsSent == sent0 + AlertsSent(outcomes[..k])
      {
        assert outcomes[..k + 1][..k] == outcomes[..k];
        if outcomes[k].Failed? { failed := failed + 1; } else { alertsSent := alertsSent + outcomes[k].alerts; }
      }
      assert outcomes[..|outcomes|] == outcomes;
    }

    /** A whole sweep over the rows read at its start, for any concurrency. If no poll throws it ends with the tables and
        the counts of polling the meters one by one, every meter a failure or an outcome; it throws exactly when some poll
        does, and then gives up in that poll's batch. */
    method Sweep(polls: seq<Poll>, concurrency: nat) returns (summary: Option<SweepSummary>, adrift: Adrift)
      requires concurrency >= 1 && DistinctMeters(polls)
      modifies this`db
      ensures summary.Some? <==> NoneThrew(OutcomesOneByOne(old(db), polls))
      ensures summary.Some? ==>
                var outcomes := OutcomesOneByOne(old(db), polls);
                && db == OneByOne(old(db), polls)
                && summary.value == SweepSummary(|polls|, Failures(outcomes), AlertsSent(outcomes), false)
                && summary.value.failed + Successes(outcomes) == summary.value.checked
      ensures summary.None? ==> ThrownIn(old(db), db, polls, concurrency, adrift)
    {
      adrift := Adrift(0, 0, map[]);
      if |polls| == 0 {
        return Some(SweepSummary(0, 0, 0, false)), adrift;
      }
      ghost var start := db;
      var failed, alertsSent, i, done, threw := 0, 0, 0, 0, false;
      while i < |polls|
        invariant done <= |polls| && (done == i || (done == |polls| && i >= |polls|))
        invariant OnTrack(start, db, polls, concurrency, done, failed, alertsSent)
        decreases |polls| - i
      {
        var end := Min(i + concurrency, |polls|);
        threw, failed, alertsSent, adrift := SweepBatch(start, polls, concurrency, i, end, failed, alertsSent);
        if threw { return None, adrift; }
        i, done := i + concurrency, end;
      }
      assert polls[..|polls|] == polls;
      EveryOutcomeIsCounted(OutcomesOneByOne(start, polls));
      return Some(SweepSummary(|polls|, failed, alertsSent, false)), adrift;
    }

    /** The batch `polls[i..end]`, after everything before it. */
    method SweepBatch(ghost start: Database, polls: seq<Poll>, concurrency: nat, i: nat, end: nat, failed0: nat, sent0: nat)
      returns (threw: bool, failed: nat, alertsSent: nat, adrift: Adrift)
      requires DistinctMeters(polls) && concurrency >= 1 && i < |polls| && end == Min(i + concurrency, |polls|)
      requires OnTrack(start, db, polls, concurrency, i, failed0, sent0)
      modifies this`db
      ensures threw ==> ThrownIn(start, db, polls, concurrency, adrift)
      ensures !threw ==> OnTrack(start, db, polls, concurrency, end, failed, alertsSent)
    {
      failed, alertsSent, adrift := failed0, sent0, Adrift(0, 0, map[]);
      var batch := polls[i..end];
      ghost var base := db;
      DistinctInBatch(polls, i, end);
      var outcomes, progress := PollBatch(batch);
      if outcomes.None? {
        ThrowingBatch(start, base, db, polls, batch, concurrency, i, end, progress);
        return true, failed, alertsSent, Adrift(i, end, progress);
      }
      QuietBatch(start, base, db, polls, batch, concurrency, i, end, outcomes.value, failed0, sent0);
      failed, alertsSent := Tally(outcomes.value, failed0, sent0);
      return false, failed, alertsSent, adrift;
    }

    /** One tick. A tick that finds a sweep under way leaves everything alone; every other tick, whether it is refused
        the lock, finishes or throws, leaves `running` cleared. */
    method RunSweep(tick: Tick) returns (summary: SweepSummary, adrift: Adrift)
      requires ValidTick(tick)
      modifies this
      ensures running == old(running)
      ensures old(running) || tick.lock != Granted || tick.visits.None? ==> db == old(db) && summary == IDLE
      ensures !old(running) && tick.lock == Granted && tick.visits.Some? ==>
                var polls := PollsOf(old(db), tick.visits.value, limits);
                var outcomes := OutcomesOneByOne(old(db), polls);
                if NoneThrew(outcomes)
                then
                  && db == AfterTick(old(db), tick, limits)
                  && summary == SweepSummary(|polls|, Failures(outcomes), AlertsSent(outcomes), false)
                else
                  && summary == IDLE
                  && ThrownIn(old(db), db, polls, tick.concurrency, adrift)
    {
      summary, adrift := IDLE, Adrift(0, 0, map[]);
      if running { return; }
      running := true;
      if tick.lock == Granted && tick.visits.Some? {
        ghost var start := db;
        var polls := PollsOf(db, tick.visits.value, limits);
        DistinctVisitsPollDistinctMeters(db, tick.visits.value, limits);
        var finished: Option<SweepSummary>;
        finished, adrift := Sweep(polls, tick.concurrency);
        if finished.Some? {
          FinishedIsSwept(start, tick.visits.value, tick.concurrency);
          summary := finished.value;
        }
      }
      running := false;
    }

    lemma FinishedIsSwept(start: Database, visits: seq<Visit>, concurrency: nat)
      requires concurrency >= 1 && NoneThrew(OutcomesOneByOne(start, PollsOf(start, visits, limits)))
      ensures Swept(start, visits, concurrency, limits) == OneByOne(start, PollsOf(start, visits, limits))
    {
      var polls := PollsOf(start, visits, limits);
      AllBegun(OutcomesOneByOne(start, polls), concurrency, 0);
      assert polls[..|polls|] == polls;
    }

    lemma ThrownEndsSwept(start: Database, now: Database, tick: Tick, polls: seq<Poll>, adrift: Adrift)
      requires tick.lock == Granted && tick.visits.Some? && polls == PollsOf(start, tick.visits.value, limits)
      requires ThrownIn(start, now, polls, tick.concurrency, adrift)
      ensures OneByOne(OneByOne(start, polls[..adrift.done]), polls[adrift.done..adrift.begun])
           == AfterTick(start, tick, limits)
    {
      OutcomesOfABatch(start, polls, adrift.done, adrift.begun);
    }

    /** A tick that threw, once the polls it left under way have run out, leaves what `AfterTick` says as well. */
    method RunOutTick(tick: Tick, polls: seq<Poll>, adrift: Adrift, ghost start: Database)
      requires ValidTick(tick) && tick.lock == Granted && tick.visits.Some?
      requires polls == PollsOf(start, tick.visits.value, limits)
      requires ThrownIn(start, db, polls, tick.concurrency, adrift)
      modifies this`db
      ensures db == AfterTick(start, tick, limits)
    {
      var batch := polls[adrift.done..adrift.begun];
      DistinctVisitsPollDistinctMeters(start, tick.visits.value, limits);
      DistinctInBatch(polls, adrift.done, adrift.begun);
      ThrownEndsSwept(start, db, tick, polls, adrift);
      RunOut(OneByOne(start, polls[..adrift.done]), batch, adrift.progress);
    }
  }
}
