/** Polls as scripts of atomic database steps, and what interleaving them can and cannot change. */
module BalanceSweep {
  import opened Prelude
  import opened MeterPoll

  /** How a poll ends: with a number of alerts sent, as a failure that was recorded, or by throwing because not even the
      failure could be recorded. */
  datatype Outcome = Sent(alerts: nat) | Failed | Threw

  /** One database step of a poll: it leaves the meter's record changed and either goes on or ends the poll. */
  datatype Effect = Next(rec: MeterRecord) | Stop(rec: MeterRecord, outcome: Outcome)

  type Atomic = MeterRecord -> Effect

  /** A poll touches only the record of its own meter. */
  datatype Poll = Poll(meterId: string, script: seq<Atomic>)

  /** Where a poll stands between two of its steps. */
  datatype Progress = Running(left: seq<Atomic>) | Done(outcome: Outcome)

  datatype PollState = PollState(rec: MeterRecord, progress: Progress)

  function Step(s: PollState): PollState {
    match s.progress
    case Done(_) => s
    case Running(left) =>
      if left == [] then PollState(s.rec, Done(Failed))
      else
        match left[0](s.rec)
        case Next(rec) => PollState(rec, Running(left[1..]))
        case Stop(rec, outcome) => PollState(rec, Done(outcome))
  }

  /** The number of steps a poll can still take. */
  function Remaining(p: Progress): nat {
    match p
    case Done(_) => 0
    case Running(left) => 1 + |left|
  }

  datatype Ended = Ended(rec: MeterRecord, outcome: Outcome)

  /** How a poll ends when nothing else touches its meter. */
  function Finish(s: PollState): Ended
    decreases Remaining(s.progress)
  {
    if s.progress.Done? then Ended(s.rec, s.progress.outcome) else Finish(Step(s))
  }

  // ---------------------------------------------------------------- one by one

  type Database = map<string, MeterRecord>

  function RecordOf(db: Database, id: string): MeterRecord {
    if id in db then db[id] else UNSEEN
  }

  function PollAlone(db: Database, poll: Poll): Ended {
    Finish(PollState(RecordOf(db, poll.meterId), Running(poll.script)))
  }

  ghost predicate DistinctMeters(polls: seq<Poll>) {
    forall i, j :: 0 <= i < j < |polls| ==> polls[i].meterId != polls[j].meterId
  }

  /** The database after polling the meters strictly one after another. */
  function OneByOne(db: Database, polls: seq<Poll>): Database {
    if polls == [] then db
    else
      var last := polls[|polls| - 1];
      var before := OneByOne(db, polls[..|polls| - 1]);
      before[last.meterId := PollAlone(before, last).rec]
  }

  /** The outcomes of polling one after another. */
  function OutcomesOneByOne(db: Database, polls: seq<Poll>): (r: seq<Outcome>)
    ensures |r| == |polls|
  {
    if polls == [] then []
    else
      var n := |polls| - 1;
      OutcomesOneByOne(db, polls[..n]) + [PollAlone(OneByOne(db, polls[..n]), polls[n]).outcome]
  }

  lemma {:induction false} OthersUntouched(db: Database, polls: seq<Poll>, id: string)
    requires forall i :: 0 <= i < |polls| ==> polls[i].meterId != id
    ensures id in OneByOne(db, polls) <==> id in db
    ensures RecordOf(OneByOne(db, polls), id) == RecordOf(db, id)
  {
    if polls != [] {
      OthersUntouched(db, polls[..|polls| - 1], id);
    }
  }

  /** Polled one by one, each meter is polled once, from what was stored when the sweep began. */
  lemma {:induction false} OneByOneIsPerMeter(db: Database, polls: seq<Poll>, i: nat)
    requires DistinctMeters(polls) && i < |polls|
    ensures polls[i].meterId in OneByOne(db, polls)
    ensures Ended(RecordOf(OneByOne(db, polls), polls[i].meterId), OutcomesOneByOne(db, polls)[i])
         == PollAlone(db, polls[i])
  {
    var n := |polls| - 1;
    if i < n {
      OneByOneIsPerMeter(db, polls[..n], i);
    } else {
      OthersUntouched(db, polls[..n], polls[n].meterId);
    }
  }

  lemma {:induction false} OneByOneConcat(db: Database, a: seq<Poll>, b: seq<Poll>)
    ensures OneByOne(db, a + b) == OneByOne(OneByOne(db, a), b)
    ensures OutcomesOneByOne(db, a + b) == OutcomesOneByOne(db, a) + OutcomesOneByOne(OneByOne(db, a), b)
  {
    if b == [] {
      assert a + b == a;
    } else {
      var n := |b| - 1;
      assert (a + b)[..|a + b| - 1] == a + b[..n];
      OneByOneConcat(db, a, b[..n]);
    }
  }

  // ---------------------------------------------------------------- counting outcomes

  ghost predicate NoneThrew(outcomes: seq<Outcome>) {
    forall i :: 0 <= i < |outcomes| ==> !outcomes[i].Threw?
  }

  function Failures(outcomes: seq<Outcome>): nat {
    if outcomes == [] then 0
    else Failures(outcomes[..|outcomes| - 1]) + (if outcomes[|outcomes| - 1].Failed? then 1 else 0)
  }

  function AlertsSent(outcomes: seq<Outcome>): nat {
    if outcomes == [] then 0
    else AlertsSent(outcomes[..|outcomes| - 1])
         + (if outcomes[|outcomes| - 1].Sent? then outcomes[|outcomes| - 1].alerts else 0)
  }

  function Successes(outcomes: seq<Outcome>): nat {
    if outcomes == [] then 0
    else Successes(outcomes[..|outcomes| - 1]) + (if outcomes[|outcomes| - 1].Sent? then 1 else 0)
  }

  lemma {:induction false} EveryOutcomeIsCounted(outcomes: seq<Outcome>)
    requires NoneThrew(outcomes)
    ensures Failures(outcomes) + Successes(outcomes) == |outcomes|
  {
    if outcomes != [] {
      EveryOutcomeIsCounted(outcomes[..|outcomes| - 1]);
    }
  }

  lemma {:induction false} CountsConcat(a: seq<Outcome>, b: seq<Outcome>)
    ensures Failures(a + b) == Failures(a) + Failures(b)
    ensures AlertsSent(a + b) == AlertsSent(a) + AlertsSent(b)
  {
    if b == [] {
      assert a + b == a;
    } else {
      assert (a + b)[..|a + b| - 1] == a + b[..|b| - 1];
      CountsConcat(a, b[..|b| - 1]);
    }
  }

  // ---------------------------------------------------------------- interleaving

  /** How many steps a batch can still take. */
  function TotalRemaining(polls: seq<Poll>, progress: map<string, Progress>): nat
    requires forall poll :: poll in polls ==> poll.meterId in progress
  {
    if polls == [] then 0
    else TotalRemaining(polls[..|polls| - 1], progress) + Remaining(progress[polls[|polls| - 1].meterId])
  }

  lemma {:induction false} ProgressElsewhere(polls: seq<Poll>, progress: map<string, Progress>, id: string, p: Progress)
    requires forall poll :: poll in polls ==> poll.meterId in progress && poll.meterId != id
    ensures TotalRemaining(polls, progress[id := p]) == TotalRemaining(polls, progress)
  {
    if polls != [] {
      assert polls[|polls| - 1] in polls;
      ProgressElsewhere(polls[..|polls| - 1], progress, id, p);
    }
  }

  lemma {:induction false} ProgressCounts(polls: seq<Poll>, progress: map<string, Progress>, i: nat, p: Progress)
    requires forall poll :: poll in polls ==> poll.meterId in progress
    requires DistinctMeters(polls) && i < |polls|
    requires Remaining(p) < Remaining(progress[polls[i].meterId])
    ensures TotalRemaining(polls, progress[polls[i].meterId := p]) < TotalRemaining(polls, progress)
  {
    var n := |polls| - 1;
    if i < n {
      ProgressCounts(polls[..n], progress, i, p);
    } else {
      ProgressElsewhere(polls[..n], progress, polls[n].meterId, p);
    }
  }

  /** Nothing that happened so far has diverted a poll from where it would have ended alone. */
  ghost predicate OnCourse(start: Database, db: Database, poll: Poll, progress: map<string, Progress>)
    requires poll.meterId in progress
  {
    Finish(PollState(RecordOf(db, poll.meterId), progress[poll.meterId])) == PollAlone(start, poll)
  }

  ghost predicate Elsewhere(polls: seq<Poll>, id: string) {
    forall i :: 0 <= i < |polls| ==> polls[i].meterId != id
  }

  /** The state of a batch part-way through any interleaving of its polls. */
  ghost predicate Interleaved(start: Database, db: Database, polls: seq<Poll>, progress: map<string, Progress>) {
    && (forall poll :: poll in polls ==> poll.meterId in progress)
    && (forall i :: 0 <= i < |polls| ==> OnCourse(start, db, polls[i], progress))
    && (forall i :: 0 <= i < |polls| && progress[polls[i].meterId].Done? ==> polls[i].meterId in db)
    && (forall id :: Elsewhere(polls, id) ==> (id in db <==> id in start) && RecordOf(db, id) == RecordOf(start, id))
  }

  lemma OthersStayOnCourse(start: Database, db: Database, polls: seq<Poll>, progress: map<string, Progress>,
                           k: nat, id: string, s: PollState)
    requires Interleaved(start, db, polls, progress)
    requires k < |polls| && polls[k].meterId != id && polls[k].meterId in progress
    ensures OnCourse(start, db[id := s.rec], polls[k], progress[id := s.progress])
  {
    assert OnCourse(start, db, polls[k], progress);
  }

  /** The step a poll takes is a step of the run it would have had alone. */
  lemma OwnStepStaysOnCourse(start: Database, db: Database, poll: Poll, progress: map<string, Progress>)
    requires poll.meterId in progress && !progress[poll.meterId].Done? && OnCourse(start, db, poll, progress)
    ensures var s := Step(PollState(RecordOf(db, poll.meterId), progress[poll.meterId]));
            && OnCourse(start, db[poll.meterId := s.rec], poll, progress[poll.meterId := s.progress])
            && Remaining(s.progress) < Remaining(progress[poll.meterId])
  {
  }

  /** Whichever unfinished poll takes the next step, the batch stays on course. */
  lemma StepKeepsCourse(start: Database, db: Database, polls: seq<Poll>, progress: map<string, Progress>, i: nat)
    requires Interleaved(start, db, polls, progress) && DistinctMeters(polls)
    requires i < |polls| && polls[i].meterId in progress && !progress[polls[i].meterId].Done?
    ensures var id := polls[i].meterId;
            var s := Step(PollState(RecordOf(db, id), progress[id]));
            && Interleaved(start, db[id := s.rec], polls, progress[id := s.progress])
            && TotalRemaining(polls, progress[id := s.progress]) < TotalRemaining(polls, progress)
  {
    var id := polls[i].meterId;
    var s := Step(PollState(RecordOf(db, id), progress[id]));
    OwnStepStaysOnCourse(start, db, polls[i], progress);
    ProgressCounts(polls, progress, i, s.progress);
    forall k | 0 <= k < |polls| ensures OnCourse(start, db[id := s.rec], polls[k], progress[id := s.progress]) {
      assert polls[k] in polls;
      if k != i {
        assert polls[k].meterId != id;
        OthersStayOnCourse(start, db, polls, progress, k, id, s);
      }
    }
  }

  lemma SettledMeter(start: Database, db: Database, polls: seq<Poll>, progress: map<string, Progress>, i: nat)
    requires Interleaved(start, db, polls, progress) && DistinctMeters(polls)
    requires i < |polls| && polls[i].meterId in progress && progress[polls[i].meterId].Done?
    ensures polls[i].meterId in OneByOne(start, polls) && polls[i].meterId in db
    ensures db[polls[i].meterId] == OneByOne(start, polls)[polls[i].meterId]
    ensures progress[polls[i].meterId].outcome == OutcomesOneByOne(start, polls)[i]
  {
    OneByOneIsPerMeter(start, polls, i);
    assert OnCourse(start, db, polls[i], progress);
  }

  /** A batch in which every poll has ended is where polling one by one would have led. */
  lemma SettledBatch(start: Database, db: Database, polls: seq<Poll>, progress: map<string, Progress>)
    requires Interleaved(start, db, polls, progress) && DistinctMeters(polls)
    requires forall poll :: poll in polls ==> progress[poll.meterId].Done?
    ensures db == OneByOne(start, polls)
    ensures forall i :: 0 <= i < |polls| ==> progress[polls[i].meterId].outcome == OutcomesOneByOne(start, polls)[i]
  {
    forall i | 0 <= i < |polls|
      ensures progress[polls[i].meterId].outcome == OutcomesOneByOne(start, polls)[i]
    {
      assert polls[i] in polls;
      SettledMeter(start, db, polls, progress, i);
    }
    forall id ensures (id in db <==> id in OneByOne(start, polls)) && (id in db ==> db[id] == OneByOne(start, polls)[id]) {
      SettledId(start, db, polls, progress, id);
    }
  }

  lemma SettledId(start: Database, db: Database, polls: seq<Poll>, progress: map<string, Progress>, id: string)
    requires Interleaved(start, db, polls, progress) && DistinctMeters(polls)
    requires forall poll :: poll in polls ==> progress[poll.meterId].Done?
    ensures (id in db <==> id in OneByOne(start, polls)) && (id in db ==> db[id] == OneByOne(start, polls)[id])
  {
    if Elsewhere(polls, id) {
      OthersUntouched(start, polls, id);
      assert id in db ==> db[id] == RecordOf(db, id) == RecordOf(start, id);
    } else {
      var i :| 0 <= i < |polls| && polls[i].meterId == id;
      assert polls[i] in polls;
      SettledMeter(start, db, polls, progress, i);
    }
  }

  // ---------------------------------------------------------------- polls that throw

  /** Whether a poll of the batch has thrown so far. */
  predicate SomeThrew(polls: seq<Poll>, progress: map<string, Progress>)
    requires forall poll :: poll in polls ==> poll.meterId in progress
  {
    exists i :: 0 <= i < |polls| && progress[polls[i].meterId] == Done(Threw)
  }

  /** A poll that has ended has the outcome it would have had alone. */
  lemma EndedAsAlone(start: Database, db: Database, polls: seq<Poll>, progress: map<string, Progress>, i: nat)
    requires Interleaved(start, db, polls, progress) && DistinctMeters(polls)
    requires i < |polls| && polls[i].meterId in progress && progress[polls[i].meterId].Done?
    ensures OutcomesOneByOne(start, polls)[i] == progress[polls[i].meterId].outcome
  {
    SettledMeter(start, db, polls, progress, i);
  }

  /** Where a sweep has got to when it returns or throws: the end of the first batch with a poll that throws. */
  function Begun(outcomes: seq<Outcome>, concurrency: nat, i: nat): (n: nat)
    requires concurrency >= 1 && i <= |outcomes|
    ensures i <= n <= |outcomes|
    decreases |outcomes| - i
  {
    var end := Min(i + concurrency, |outcomes|);
    if i == |outcomes| then i
    else if exists k :: i <= k < end && outcomes[k].Threw? then end
    else Begun(outcomes, concurrency, end)
  }

  lemma BegunAtThrower(outcomes: seq<Outcome>, concurrency: nat, i: nat, k: nat)
    requires concurrency >= 1 && i <= k < Min(i + concurrency, |outcomes|) && outcomes[k].Threw?
    ensures Begun(outcomes, concurrency, i) == Min(i + concurrency, |outcomes|)
    ensures !NoneThrew(outcomes)
  {
  }

  lemma BegunPastBatch(outcomes: seq<Outcome>, concurrency: nat, i: nat)
    requires concurrency >= 1 && i < |outcomes| && NoneThrew(outcomes[i..Min(i + concurrency, |outcomes|)])
    ensures Begun(outcomes, concurrency, i) == Begun(outcomes, concurrency, Min(i + concurrency, |outcomes|))
  {
    var end := Min(i + concurrency, |outcomes|);
    assert forall k :: i <= k < end ==> outcomes[k] == outcomes[i..end][k - i];
  }

  /** When no poll throws, every batch is begun. */
  lemma {:induction false} AllBegun(outcomes: seq<Outcome>, concurrency: nat, i: nat)
    requires concurrency >= 1 && i <= |outcomes| && NoneThrew(outcomes)
    ensures Begun(outcomes, concurrency, i) == |outcomes|
    decreases |outcomes| - i
  {
    if i < |outcomes| {
      AllBegun(outcomes, concurrency, Min(i + concurrency, |outcomes|));
    }
  }

  /** The outcomes of a stretch of the polls, from where the polls before it leave the tables. */
  lemma OutcomesOfABatch(db: Database, polls: seq<Poll>, i: nat, end: nat)
    requires i <= end <= |polls|
    ensures OutcomesOneByOne(OneByOne(db, polls[..i]), polls[i..end]) == OutcomesOneByOne(db, polls)[i..end]
    ensures OutcomesOneByOne(db, polls[..end]) == OutcomesOneByOne(db, polls)[..end]
    ensures OneByOne(OneByOne(db, polls[..i]), polls[i..end]) == OneByOne(db, polls[..end])
  {
    assert polls[..end] + polls[end..] == polls && polls[..i] + polls[i..end] == polls[..end];
    OneByOneConcat(db, polls[..end], polls[end..]);
    OneByOneConcat(db, polls[..i], polls[i..end]);
  }
}
