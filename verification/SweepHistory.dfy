/** What polls leave of a meter is a history: every poll is its events, and so is every run in which no meter is read
    while a poll of it is still under way. */
module SweepHistory {
  import opened Prelude
  import opened Portal
  import opened UsageSampling
  import opened Tiling
  import opened AlertEvaluation
  import opened MeterPoll
  import opened MeterHistory
  import opened BalanceSweep
  import opened PollScript

  // ---------------------------------------------------------------- one poll

  /** What one poll adds to the history of a meter whose record is `rec`. A failure that could not be recorded is no
      event; after a commit it leaves the commit alone. */
  function EventsOf(rec: MeterRecord, settings: Settings, inp: PollInput): seq<Event> {
    match inp.scrape
    case Err(reason) => if inp.recordThrows then [] else [Unreachable(reason, inp.failedAt)]
    case Ok(snapshot) =>
      if inp.commitError.Some?
      then if inp.recordThrows then [] else [RolledBack(snapshot, inp.commitError.value, inp.failedAt)]
      else
        var polled := PolledBy(settings, inp);
        if inp.lostPush.Some? && inp.lostPush.value < |EvaluationOf(rec, polled).alerts| then [polled]
        else if inp.notice == QueryThrows || inp.notice == MarkThrows then [polled]
        else [polled, Checked(settings, inp.checkedAt)]
  }

  function PolledBy(settings: Settings, inp: PollInput): Event
    requires inp.scrape.Ok?
  {
    Polled(inp.scrape.value, inp.now, settings, if inp.recordThrows then None else inp.lostPush, inp.failedAt)
  }

  function AfterAll(rec: MeterRecord, events: seq<Event>, limits: Limits): MeterRecord {
    if events == [] then rec
    else After(AfterAll(rec, events[..|events| - 1], limits), events[|events| - 1], limits)
  }

  lemma RunOneMore(events: seq<Event>, e: Event, limits: Limits)
    ensures Run(events + [e], limits) == After(Run(events, limits), e, limits)
  {
    assert (events + [e])[..|events|] == events;
  }

  lemma AfterAllOneMore(rec: MeterRecord, events: seq<Event>, e: Event, limits: Limits)
    ensures AfterAll(rec, events + [e], limits) == After(AfterAll(rec, events, limits), e, limits)
  {
    assert (events + [e])[..|events|] == events;
  }

  lemma {:induction false} RunOfMore(events: seq<Event>, more: seq<Event>, limits: Limits)
    ensures Run(events + more, limits) == AfterAll(Run(events, limits), more, limits)
  {
    AppendOneMore(events, more);
    if more != [] {
      var init, last := more[..|more| - 1], more[|more| - 1];
      RunOfMore(events, init, limits);
      RunOneMore(events + init, last, limits);
      AfterAllOneMore(Run(events, limits), init, last, limits);
    }
  }

  lemma AfterOne(rec: MeterRecord, e: Event, limits: Limits)
    ensures AfterAll(rec, [e], limits) == After(rec, e, limits)
  {
    assert [e][..0] == [];
  }

  lemma AfterTwo(rec: MeterRecord, e: Event, f: Event, limits: Limits)
    ensures AfterAll(rec, [e, f], limits) == After(After(rec, e, limits), f, limits)
  {
    AfterOne(rec, e, limits);
    AfterAllOneMore(rec, [e], f, limits);
    assert [e] + [f] == [e, f];
  }

  /** The check reads the row as it was before the poll; the poll itself does not change what it reads there. */
  lemma CheckReadsTheSameMarker(rec: MeterRecord, saved: MeterRecord, id: string, settings: Settings, now: int)
    requires rec.state.Some? && saved.state.Some? ==> saved.state.value.lastAnomalyOn == rec.state.value.lastAnomalyOn
    requires rec.state.None? && saved.state.Some? ==> saved.state.value.lastAnomalyOn.None?
    requires saved.state.Some?
    ensures AnomalyDecision(RowOf(id, settings, rec), saved.samples, now)
         == AnomalyDecision(RowOf("", settings, saved), saved.samples, now)
  {
  }

  /** A poll that committed and lost a push, or whose check never got to a decision. */
  lemma UncheckedPollIsItsEvent(rec: MeterRecord, id: string, settings: Settings, inp: PollInput, limits: Limits)
    requires inp.scrape.Ok? && inp.commitError.None? && |EventsOf(rec, settings, inp)| == 1
    ensures Whole(rec, RowOf(id, settings, rec), inp, limits).rec == After(rec, PolledBy(settings, inp), limits)
  {
  }

  lemma CheckedPollIsItsEvents(rec: MeterRecord, id: string, settings: Settings, inp: PollInput, limits: Limits)
    requires inp.scrape.Ok? && inp.commitError.None? && |EventsOf(rec, settings, inp)| == 2
    ensures Whole(rec, RowOf(id, settings, rec), inp, limits).rec
         == After(After(rec, PolledBy(settings, inp), limits), Checked(settings, inp.checkedAt), limits)
  {
    var row := RowOf(id, settings, rec);
    var evaluation := Evaluate(PreviousOf(row), inp.scrape.value, settings);
    var saved := RecordSuccess(rec, row, evaluation, inp.scrape.value, inp.now, limits);
    CheckReadsTheSameMarker(rec, saved, id, settings, inp.checkedAt);
  }

  lemma CommittedPollIsItsEvents(rec: MeterRecord, id: string, settings: Settings, inp: PollInput, limits: Limits)
    requires inp.scrape.Ok? && inp.commitError.None?
    ensures Whole(rec, RowOf(id, settings, rec), inp, limits).rec == AfterAll(rec, EventsOf(rec, settings, inp), limits)
  {
    var polled := PolledBy(settings, inp);
    if |EventsOf(rec, settings, inp)| == 1 {
      UncheckedPollIsItsEvent(rec, id, settings, inp, limits);
      AfterOne(rec, polled, limits);
    } else {
      CheckedPollIsItsEvents(rec, id, settings, inp, limits);
      AfterTwo(rec, polled, Checked(settings, inp.checkedAt), limits);
    }
  }

  /** What a poll leaves of its meter's record is what its events leave. */
  lemma PollIsItsEvents(rec: MeterRecord, id: string, settings: Settings, inp: PollInput, limits: Limits)
    ensures Finish(PollState(rec, Running(Script(RowOf(id, settings, rec), inp, limits)))).rec
         == AfterAll(rec, EventsOf(rec, settings, inp), limits)
  {
    ScriptEndsAsWritten(rec, RowOf(id, settings, rec), inp, limits);
    if inp.scrape.Ok? && inp.commitError.None? {
      CommittedPollIsItsEvents(rec, id, settings, inp, limits);
    } else if !inp.recordThrows {
      AfterOne(rec, EventsOf(rec, settings, inp)[0], limits);
    }
  }

  // ---------------------------------------------------------------- one sweep

  /** A meter on the list a sweep works through, and the outside world's answer to its poll. */
  datatype Visit = Visit(meterId: string, settings: Settings, input: PollInput)

  ghost predicate DistinctVisits(visits: seq<Visit>) {
    forall i, j :: 0 <= i < j < |visits| ==> visits[i].meterId != visits[j].meterId
  }

  /** The rows are read from the tables before any meter is polled. */
  function PollsOf(db: Database, visits: seq<Visit>, limits: Limits): (r: seq<Poll>)
    ensures |r| == |visits|
    ensures forall i :: 0 <= i < |visits| ==>
              var v := visits[i];
              r[i] == AsPoll(RowOf(v.meterId, v.settings, RecordOf(db, v.meterId)), v.input, limits)
  {
    seq(|visits|, i requires 0 <= i < |visits| =>
      AsPoll(RowOf(visits[i].meterId, visits[i].settings, RecordOf(db, visits[i].meterId)), visits[i].input, limits))
  }

  /** The tables once every poll a sweep has begun has ended: a sweep stops beginning batches when a poll throws. */
  function Swept(db: Database, visits: seq<Visit>, concurrency: nat, limits: Limits): Database
    requires concurrency >= 1
  {
    var polls := PollsOf(db, visits, limits);
    OneByOne(db, polls[..Begun(OutcomesOneByOne(db, polls), concurrency, 0)])
  }

  // ---------------------------------------------------------------- every tick

  /** How the advisory lock answers a sweep that asks for it. */
  datatype LockAnswer = Granted | Refused | LockThrows

  type Positive = n: nat | n >= 1 witness 1

  /** One tick. `visits` is absent when reading the meters throws. */
  datatype Tick = Tick(lock: LockAnswer, visits: Option<seq<Visit>>, concurrency: Positive)

  ghost predicate ValidTick(tick: Tick) {
    tick.visits.Some? ==> DistinctVisits(tick.visits.value)
  }

  /** The tables once a tick, and any batch it leaves under way, are over. */
  function AfterTick(db: Database, tick: Tick, limits: Limits): Database {
    if tick.lock == Granted && tick.visits.Some? then Swept(db, tick.visits.value, tick.concurrency, limits) else db
  }

  // ---------------------------------------------------------------- every run

  /** A poll that has read its row and not ended. */
  datatype Underway = Underway(meterId: string, progress: Progress)

  /** The tables, and the polls under way, from whatever tick they come. */
  datatype Service = Service(db: Database, polls: seq<Underway>)

  datatype Move =
    /** A tick reads the row of a meter it will poll. */
    | Read(visit: Visit)
    /** The poll at `index` takes its next database step. */
    | Advance(index: nat)

  function Started(db: Database, v: Visit, limits: Limits): Underway {
    Underway(v.meterId, Running(Script(RowOf(v.meterId, v.settings, RecordOf(db, v.meterId)), v.input, limits)))
  }

  function Stepped(s: Service, i: nat): Service
    requires i < |s.polls|
  {
    var p := s.polls[i];
    var t := Step(PollState(RecordOf(s.db, p.meterId), p.progress));
    Service(s.db[p.meterId := t.rec],
            if t.progress.Done? then Without(s.polls, i) else s.polls[i := p.(progress := t.progress)])
  }

  function Moved(s: Service, move: Move, limits: Limits): Service {
    match move
    case Read(v) => s.(polls := s.polls + [Started(s.db, v, limits)])
    case Advance(i) => if i < |s.polls| then Stepped(s, i) else s
  }

  function Serve(moves: seq<Move>, limits: Limits): Service {
    if moves == [] then Service(map[], [])
    else Moved(Serve(moves[..|moves| - 1], limits), moves[|moves| - 1], limits)
  }

  ghost predicate Idle(polls: seq<Underway>, id: string) {
    forall i :: 0 <= i < |polls| ==> polls[i].meterId != id
  }

  /** No poll outlives its tick into the next reading of its meter. */
  ghost predicate ReadsAlone(moves: seq<Move>, limits: Limits) {
    moves == [] ||
    var n := |moves| - 1;
    && ReadsAlone(moves[..n], limits)
    && (moves[n].Read? ==> Idle(Serve(moves[..n], limits).polls, moves[n].visit.meterId))
  }

  /** The history a run makes of one meter: the events of its polls, in the order they read their rows. */
  function HistoryOf(moves: seq<Move>, id: string, limits: Limits): seq<Event> {
    if moves == [] then []
    else
      var n := |moves| - 1;
      HistoryOf(moves[..n], id, limits)
      + (if moves[n].Read? && moves[n].visit.meterId == id
         then EventsOf(RecordOf(Serve(moves[..n], limits).db, id), moves[n].visit.settings, moves[n].visit.input) else [])
  }

  ghost predicate OneEach(polls: seq<Underway>) {
    && (forall i, j :: 0 <= i < j < |polls| ==> polls[i].meterId != polls[j].meterId)
    && (forall i :: 0 <= i < |polls| ==> polls[i].progress.Running?)
  }

  /** The record a meter has, or will have when the poll under way for it ends. */
  ghost predicate BoundFor(s: Service, id: string, rec: MeterRecord) {
    && (Idle(s.polls, id) ==> RecordOf(s.db, id) == rec)
    && (forall i :: 0 <= i < |s.polls| && s.polls[i].meterId == id ==>
          Finish(PollState(RecordOf(s.db, id), s.polls[i].progress)).rec == rec)
  }

  lemma ReadStarts(s: Service, v: Visit, id: string, events: seq<Event>, limits: Limits)
    requires OneEach(s.polls) && Idle(s.polls, v.meterId) && BoundFor(s, id, Run(events, limits))
    ensures OneEach(Moved(s, Read(v), limits).polls)
    ensures var more := if v.meterId == id then EventsOf(RecordOf(s.db, id), v.settings, v.input) else [];
            BoundFor(Moved(s, Read(v), limits), id, Run(events + more, limits))
  {
    var polls := Moved(s, Read(v), limits).polls;
    assert polls[|s.polls|] == Started(s.db, v, limits);
    if v.meterId == id {
      var rec := RecordOf(s.db, id);
      RunOfMore(events, EventsOf(rec, v.settings, v.input), limits);
      PollIsItsEvents(rec, id, v.settings, v.input, limits);
    } else {
      assert events + [] == events;
      assert forall i :: 0 <= i < |s.polls| ==> polls[i] == s.polls[i];
    }
  }

  /** A poll that ends is gone and leaves the others in their order. */
  lemma OthersStay(polls: seq<Underway>, i: nat)
    requires i < |polls| && OneEach(polls)
    ensures OneEach(Without(polls, i)) && Idle(Without(polls, i), polls[i].meterId)
    ensures forall k :: 0 <= k < |polls| - 1 ==> Without(polls, i)[k] == polls[if k < i then k else k + 1]
  {
  }

  lemma IdleWithout(polls: seq<Underway>, i: nat, id: string)
    requires i < |polls| && polls[i].meterId != id && Idle(Without(polls, i), id)
    ensures Idle(polls, id)
  {
    forall k | 0 <= k < |polls| ensures polls[k].meterId != id {
      if k != i {
        assert polls[k] == Without(polls, i)[if k < i then k else k - 1];
      }
    }
  }

  lemma FinishAtTheLastStep(s: PollState)
    requires s.progress.Running? && Step(s).progress.Done?
    ensures Finish(s).rec == Step(s).rec
  {
    assert Finish(s) == Finish(Step(s));
  }

  lemma EndStaysBound(s: Service, i: nat, id: string, rec: MeterRecord)
    requires i < |s.polls| && OneEach(s.polls) && BoundFor(s, id, rec)
    requires Step(PollState(RecordOf(s.db, s.polls[i].meterId), s.polls[i].progress)).progress.Done?
    ensures OneEach(Stepped(s, i).polls) && BoundFor(Stepped(s, i), id, rec)
  {
    OthersStay(s.polls, i);
    if s.polls[i].meterId == id {
      FinishAtTheLastStep(PollState(RecordOf(s.db, id), s.polls[i].progress));
    } else if Idle(Without(s.polls, i), id) {
      IdleWithout(s.polls, i, id);
    }
  }

  lemma StepStaysBound(s: Service, i: nat, id: string, rec: MeterRecord)
    requires i < |s.polls| && OneEach(s.polls) && BoundFor(s, id, rec)
    requires Step(PollState(RecordOf(s.db, s.polls[i].meterId), s.polls[i].progress)).progress.Running?
    ensures OneEach(Stepped(s, i).polls) && BoundFor(Stepped(s, i), id, rec)
  {
    var polls := Stepped(s, i).polls;
    assert forall k :: 0 <= k < |polls| ==> polls[k].meterId == s.polls[k].meterId;
    assert Idle(polls, id) ==> Idle(s.polls, id) && polls[i].meterId != id;
  }

  /** Whatever is true of every history is true of every meter the service has ever polled. In every run that reads no
      meter while a poll of it is under way, however the polls of one tick or of many interleave, each record is the run
      of its meter's history, or will be when the poll under way for it ends. */
  lemma {:induction false} TablesAreHistories(moves: seq<Move>, id: string, limits: Limits)
    requires ReadsAlone(moves, limits)
    ensures OneEach(Serve(moves, limits).polls)
    ensures BoundFor(Serve(moves, limits), id, Run(HistoryOf(moves, id, limits), limits))
  {
    if moves != [] {
      var n := |moves| - 1;
      var s, events := Serve(moves[..n], limits), HistoryOf(moves[..n], id, limits);
      TablesAreHistories(moves[..n], id, limits);
      match moves[n] {
        case Read(v) => ReadStarts(s, v, id, events, limits);
        case Advance(i) =>
          assert events + [] == events;
          if i < |s.polls| {
            if Step(PollState(RecordOf(s.db, s.polls[i].meterId), s.polls[i].progress)).progress.Done? {
              EndStaysBound(s, i, id, Run(events, limits));
            } else {
              StepStaysBound(s, i, id, Run(events, limits));
            }
          }
      }
    }
  }

  /** So the schema's claim holds of the tables themselves: as long as a meter's reading instants do not go back once one
      has advanced, its rows lead without a gap or an overlap to the instant the next window chains off. */
  lemma StoredRowsLead(moves: seq<Move>, id: string, limits: Limits)
    requires ReadsAlone(moves, limits) && Idle(Serve(moves, limits).polls, id)
    requires NeverBackOnceAdvanced(Instants(HistoryOf(moves, id, limits)))
    ensures RowsLeadToState(RecordOf(Serve(moves, limits).db, id))
  {
    TablesAreHistories(moves, id, limits);
    RowsLeadWhileNeverBack(HistoryOf(moves, id, limits), limits);
  }

  // ---------------------------------------------------------------- a tick on its own is such a run

  /** The poll at `i` taken to its end without a pause. */
  function RunOutAt(s: Service, i: nat): Service
    requires i < |s.polls|
  {
    var p := s.polls[i];
    Service(s.db[p.meterId := Finish(PollState(RecordOf(s.db, p.meterId), p.progress)).rec], Without(s.polls, i))
  }

  lemma OneMoveMore(moves: seq<Move>, move: Move, limits: Limits)
    ensures moves <= moves + [move]
    ensures Serve(moves + [move], limits) == Moved(Serve(moves, limits), move, limits)
    ensures ReadsAlone(moves + [move], limits) <==>
              ReadsAlone(moves, limits) && (move.Read? ==> Idle(Serve(moves, limits).polls, move.visit.meterId))
  {
    assert (moves + [move])[..|moves|] == moves;
  }

  lemma RunOutAfterStep(s: Service, i: nat)
    requires i < |s.polls| && s.polls[i].progress.Running?
    ensures var t := Step(PollState(RecordOf(s.db, s.polls[i].meterId), s.polls[i].progress));
            if t.progress.Done? then Stepped(s, i) == RunOutAt(s, i)
            else i < |Stepped(s, i).polls| && Stepped(s, i).polls[i].progress == t.progress
                 && RunOutAt(Stepped(s, i), i) == RunOutAt(s, i)
  {
    var p := s.polls[i];
    var t := Step(PollState(RecordOf(s.db, p.meterId), p.progress));
    if t.progress.Done? {
      FinishAtTheLastStep(PollState(RecordOf(s.db, p.meterId), p.progress));
    } else {
      assert Without(s.polls[i := p.(progress := t.progress)], i) == Without(s.polls, i);
    }
  }

  lemma {:induction false} RunOut(moves: seq<Move>, i: nat, limits: Limits) returns (longer: seq<Move>)
    requires i < |Serve(moves, limits).polls| && Serve(moves, limits).polls[i].progress.Running?
    ensures moves <= longer && Serve(longer, limits) == RunOutAt(Serve(moves, limits), i)
    ensures ReadsAlone(moves, limits) ==> ReadsAlone(longer, limits)
    decreases Remaining(Serve(moves, limits).polls[i].progress)
  {
    var s := Serve(moves, limits);
    OneMoveMore(moves, Advance(i), limits);
    RunOutAfterStep(s, i);
    longer := moves + [Advance(i)];
    if Step(PollState(RecordOf(s.db, s.polls[i].meterId), s.polls[i].progress)).progress.Running? {
      longer := RunOut(longer, i, limits);
    }
  }

  function AllStarted(db: Database, visits: seq<Visit>, limits: Limits): (r: seq<Underway>)
    ensures |r| == |visits| && forall i :: 0 <= i < |r| ==> r[i] == Started(db, visits[i], limits)
  {
    seq(|visits|, i requires 0 <= i < |visits| => Started(db, visits[i], limits))
  }

  lemma ReadOne(moves: seq<Move>, v: Visit, s: Service, earlier: seq<Underway>, limits: Limits) returns (longer: seq<Move>)
    requires ReadsAlone(moves, limits) && Serve(moves, limits) == Service(s.db, s.polls + earlier)
    requires Idle(s.polls, v.meterId) && Idle(earlier, v.meterId)
    ensures moves <= longer && ReadsAlone(longer, limits)
    ensures Serve(longer, limits) == Service(s.db, s.polls + (earlier + [Started(s.db, v, limits)]))
  {
    OneMoveMore(moves, Read(v), limits);
    longer := moves + [Read(v)];
    assert Idle(s.polls + earlier, v.meterId);
    assert s.polls + earlier + [Started(s.db, v, limits)] == s.polls + (earlier + [Started(s.db, v, limits)]);
  }

  lemma StartedIdle(db: Database, visits: seq<Visit>, id: string, limits: Limits)
    requires forall i :: 0 <= i < |visits| ==> visits[i].meterId != id
    ensures Idle(AllStarted(db, visits, limits), id)
  {
  }

  lemma StartedOneMore(db: Database, init: seq<Visit>, v: Visit, limits: Limits)
    ensures AllStarted(db, init, limits) + [Started(db, v, limits)] == AllStarted(db, init + [v], limits)
  {
    var all := AllStarted(db, init + [v], limits);
    assert forall i :: 0 <= i < |init| ==> all[i] == AllStarted(db, init, limits)[i];
  }

  /** A tick reads every row before it polls any meter. */
  lemma {:induction false} ReadAll(moves: seq<Move>, s: Service, visits: seq<Visit>, limits: Limits)
    returns (longer: seq<Move>)
    requires ReadsAlone(moves, limits) && DistinctVisits(visits) && s == Serve(moves, limits)
    requires forall i :: 0 <= i < |visits| ==> Idle(s.polls, visits[i].meterId)
    ensures moves <= longer && ReadsAlone(longer, limits)
    ensures Serve(longer, limits) == Service(s.db, s.polls + AllStarted(s.db, visits, limits))
  {
    longer := moves;
    if visits == [] {
      assert s.polls + AllStarted(s.db, visits, limits) == s.polls;
    } else {
      var init, v := visits[..|visits| - 1], visits[|visits| - 1];
      longer := ReadAll(moves, s, init, limits);
      StartedIdle(s.db, init, v.meterId, limits);
      StartedOneMore(s.db, init, v, limits);
      assert init + [v] == visits;
      longer := ReadOne(longer, v, s, AllStarted(s.db, init, limits), limits);
    }
  }

  /** The first of the polls a tick has left to run ends as it would alone. */
  lemma RunOutFirst(s: Service, base: seq<Underway>, started: seq<Underway>, db: Database, polls: seq<Poll>, j: nat)
    requires |started| == |polls| && j < |polls|
    requires started[j] == Underway(polls[j].meterId, Running(polls[j].script))
    requires s == Service(OneByOne(db, polls[..j]), base + started[j..])
    ensures RunOutAt(s, |base|) == Service(OneByOne(db, polls[..j + 1]), base + started[j + 1..])
  {
    assert s.polls[|base|] == started[j];
    assert polls[..j + 1][..j] == polls[..j];
    assert Without(s.polls, |base|) == base + started[j + 1..];
  }

  lemma RunOutAll(moves: seq<Move>, base: seq<Underway>, db: Database, visits: seq<Visit>, limits: Limits)
    returns (longer: seq<Move>)
    requires ReadsAlone(moves, limits)
    requires Serve(moves, limits) == Service(db, base + AllStarted(db, visits, limits))
    ensures moves <= longer && ReadsAlone(longer, limits)
    ensures Serve(longer, limits) == Service(OneByOne(db, PollsOf(db, visits, limits)), base)
  {
    var polls, started := PollsOf(db, visits, limits), AllStarted(db, visits, limits);
    longer := moves;
    assert started[0..] == started && polls[..0] == [];
    for j := 0 to |polls|
      invariant moves <= longer && ReadsAlone(longer, limits)
      invariant Serve(longer, limits) == Service(OneByOne(db, polls[..j]), base + started[j..])
    {
      RunOutFirst(Serve(longer, limits), base, started, db, polls, j);
      assert Serve(longer, limits).polls[|base|] == started[j];
      longer := RunOut(longer, |base|, limits);
    }
    assert polls[..|polls|] == polls && base + started[|polls|..] == base;
  }

  /** A tick that finds no poll of its meters under way, run to its end, is moves that read every row alone, and leaves the
      tables as the service's own sweep does. */
  lemma TickIsMoves(moves: seq<Move>, tick: Tick, limits: Limits) returns (longer: seq<Move>)
    requires ReadsAlone(moves, limits) && ValidTick(tick)
    requires tick.visits.Some? ==> forall i :: 0 <= i < |tick.visits.value| ==>
               Idle(Serve(moves, limits).polls, tick.visits.value[i].meterId)
    ensures moves <= longer && ReadsAlone(longer, limits)
    ensures var s := Serve(moves, limits); Serve(longer, limits) == Service(AfterTick(s.db, tick, limits), s.polls)
  {
    longer := moves;
    if tick.lock == Granted && tick.visits.Some? {
      var s, visits := Serve(moves, limits), tick.visits.value;
      var polls := PollsOf(s.db, visits, limits);
      var n := Begun(OutcomesOneByOne(s.db, polls), tick.concurrency, 0);
      longer := ReadAll(moves, s, visits[..n], limits);
      longer := RunOutAll(longer, s.polls, s.db, visits[..n], limits);
      assert PollsOf(s.db, visits[..n], limits) == polls[..n];
    }
  }

  // ---------------------------------------------------------------- a poll that outlives its tick

  ghost predicate Commits(inp: PollInput) {
    inp.scrape.Ok? && inp.commitError.None?
  }

  function ReadingOf(inp: PollInput): int
    requires inp.scrape.Ok?
  {
    ResolveReadingInstant(inp.scrape.value.balanceAsOf, inp.now).at
  }

  /** What follows a commit keeps its sample, its balance and its instant. */
  lemma CommitStands(rec: MeterRecord, row: MonitoredMeter, inp: PollInput, limits: Limits)
    requires Commits(inp)
    ensures var after := Whole(rec, row, inp, limits).rec;
            && after.samples == InsertSample(rec.samples, BuildSample(row, inp.scrape.value, ReadingOf(inp), limits))
            && HasReading(after) && LastAt(after) == ReadingOf(inp)
  {
  }

  /** Two polls from one row of a meter whose rows lead to its instant, the first of which advances: the second stores no
      sample, and its instant stands all the same, so the rows lead there only if both read the same one. */
  lemma StaleRowStoresNothing(rec: MeterRecord, id: string, v: Visit, w: Visit, limits: Limits)
    requires HasReading(rec) && RowsLeadToState(rec) && Commits(v.input) && Commits(w.input)
    requires LastAt(rec) < ReadingOf(v.input)
    ensures var one := Whole(rec, RowOf(id, v.settings, rec), v.input, limits).rec;
            var two := Whole(one, RowOf(id, w.settings, rec), w.input, limits).rec;
            && |one.samples| == |rec.samples| + 1 && two.samples == one.samples
            && HasReading(two) && LastAt(two) == ReadingOf(w.input)
            && (RowsLeadToState(two) <==> ReadingOf(w.input) == ReadingOf(v.input))
  {
    var row, stale, from := RowOf(id, v.settings, rec), RowOf(id, w.settings, rec), LastAt(rec);
    var one := Whole(rec, row, v.input, limits).rec;
    CommitStands(rec, row, v.input, limits);
    CommitStands(one, stale, w.input, limits);
    OpenWindowIsFree(rec);
    var sample := BuildSample(row, v.input.scrape.value, ReadingOf(v.input), limits).value;
    assert one.samples == rec.samples + [sample] && one.samples[|rec.samples|] == sample;
    LeadsToItsEnd(rec, sample);
    ChainReaches(one.samples, one.samples[0].windowStart, ReadingOf(v.input), ReadingOf(w.input));
  }

  lemma OpenWindowIsFree(rec: MeterRecord)
    requires HasReading(rec) && RowsLeadToState(rec)
    ensures !HasWindow(rec.samples, LastAt(rec))
  {
    if rec.samples != [] {
      ChainHasNoWindowAtItsEnd(rec.samples, rec.samples[0].windowStart, LastAt(rec));
    }
  }

  lemma LeadsToItsEnd(rec: MeterRecord, sample: UsageSample)
    requires HasReading(rec) && RowsLeadToState(rec) && sample.windowStart == LastAt(rec) < sample.windowEnd
    ensures var more := rec.samples + [sample]; Chain(more, more[0].windowStart, sample.windowEnd)
  {
    var more := rec.samples + [sample];
    ChainOfOneMore(rec.samples, sample, more[0].windowStart, LastAt(rec));
  }

  lemma ChainReaches(samples: seq<UsageSample>, from: int, to: int, other: int)
    requires Chain(samples, from, to)
    ensures Chain(samples, from, other) <==> other == to
  {
    if Chain(samples, from, other) {
      ChainEndIsUnique(samples, from, to, other);
    }
  }

  lemma ReadTwice(moves: seq<Move>, v: Visit, w: Visit, limits: Limits) returns (longer: seq<Move>)
    ensures longer == moves + [Read(v), Read(w)]
    ensures var s := Serve(moves, limits);
            Serve(longer, limits) == Service(s.db, s.polls + [Started(s.db, v, limits)] + [Started(s.db, w, limits)])
  {
    OneMoveMore(moves, Read(v), limits);
    OneMoveMore(moves + [Read(v)], Read(w), limits);
    longer := moves + [Read(v)] + [Read(w)];
  }

  /** A poll that has only read its row, taken to its end over whatever record its meter has by then. */
  lemma RunOutRead(moves: seq<Move>, base: seq<Underway>, rest: seq<Underway>, id: string, row: MonitoredMeter,
                   inp: PollInput, limits: Limits) returns (longer: seq<Move>)
    requires Serve(moves, limits).polls == base + [Underway(id, Running(Script(row, inp, limits)))] + rest
    ensures moves <= longer
    ensures var db := Serve(moves, limits).db;
            Serve(longer, limits) == Service(db[id := Whole(RecordOf(db, id), row, inp, limits).rec], base + rest)
  {
    var s := Serve(moves, limits);
    WithoutMiddle(base, Underway(id, Running(Script(row, inp, limits))), rest);
    longer := RunOut(moves, |base|, limits);
    ScriptEndsAsWritten(RecordOf(s.db, id), row, inp, limits);
  }

  /** In the run of the service: a poll from before outlives its tick, a tick reads the same row, and what the later of the
      two measured is lost unless they read the same instant. */
  lemma OutlivingPollLosesAWindow(moves: seq<Move>, v: Visit, w: Visit, limits: Limits) returns (longer: seq<Move>)
    requires v.meterId == w.meterId && Idle(Serve(moves, limits).polls, v.meterId)
    requires Commits(v.input) && Commits(w.input)
    requires var rec := RecordOf(Serve(moves, limits).db, v.meterId);
             HasReading(rec) && RowsLeadToState(rec) && LastAt(rec) < ReadingOf(v.input)
    ensures moves + [Read(v), Read(w)] <= longer && Serve(longer, limits).polls == Serve(moves, limits).polls
    ensures var rec := RecordOf(Serve(longer, limits).db, v.meterId);
            && HasReading(rec) && LastAt(rec) == ReadingOf(w.input)
            && |rec.samples| == |RecordOf(Serve(moves, limits).db, v.meterId).samples| + 1
            && (RowsLeadToState(rec) <==> ReadingOf(w.input) == ReadingOf(v.input))
  {
    var s := Serve(moves, limits);
    var rec, id := RecordOf(s.db, v.meterId), v.meterId;
    var q := Started(s.db, w, limits);
    var one := Whole(rec, RowOf(id, v.settings, rec), v.input, limits).rec;
    longer := ReadTwice(moves, v, w, limits);
    longer := RunOutRead(longer, s.polls, [q], id, RowOf(id, v.settings, rec), v.input, limits);
    assert s.polls + [q] + [] == s.polls + [q];
    longer := RunOutRead(longer, s.polls, [], id, RowOf(id, w.settings, rec), w.input, limits);
    StaleRowStoresNothing(rec, id, v, w, limits);
  }

  /** A poll of meter "m" that commits at `now`, all going well. */
  function HourlyVisit(now: int): (v: Visit)
    ensures Commits(v.input) && ReadingOf(v.input) == now
  {
    var snapshot := Snapshot(0.0, None, []);
    Visit("m", DEFAULT_SETTINGS, PollInput(Ok(snapshot), now, None, None, NoFault, now, now, false))
  }

  /** Polls at hours 0, 1 and 2, the third reading the row the second read: no row holds the hour before the stored
      instant. */
  lemma LostHour(limits: Limits) returns (moves: seq<Move>)
    ensures Serve(moves, limits).polls == []
    ensures var rec := RecordOf(Serve(moves, limits).db, "m");
            && HasReading(rec) && LastAt(rec) == 2 * MS_PER_HOUR
            && |rec.samples| == 1 && !RowsLeadToState(rec)
  {
    var u, v, w := HourlyVisit(0), HourlyVisit(MS_PER_HOUR), HourlyVisit(2 * MS_PER_HOUR);
    var row := RowOf("m", u.settings, UNSEEN);
    OneMoveMore([], Read(u), limits);
    moves := RunOutRead([] + [Read(u)], [], [], "m", row, u.input, limits);
    CommitStands(UNSEEN, row, u.input, limits);
    moves := OutlivingPollLosesAWindow(moves, v, w, limits);
  }
}
