/** Whole histories of one meter: any run of polls that succeed, fail, roll back or die half-way. */
module MeterHistory {
  import opened Prelude
  import opened Portal
  import opened UsageSampling
  import opened AlertEvaluation
  import opened Tiling
  import opened MeterPoll

  datatype Event =
    /** The poll's transaction committed; push number `lostPush` (if there is one) then threw, at `failedAt`. */
    | Polled(snapshot: Snapshot, now: int, settings: Settings, lostPush: Option<nat>, failedAt: int)
    /** The scrape failed. */
    | Unreachable(reason: string, now: int)
    /** The scrape succeeded but its transaction rolled back, and the failure was recorded. */
    | RolledBack(snapshot: Snapshot, reason: string, now: int)
    /** The process died before its transaction committed. */
    | Died(snapshot: Snapshot)
    /** The usage-anomaly check that follows a poll. */
    | Checked(settings: Settings, now: int)

  function EvaluationOf(rec: MeterRecord, e: Event): Evaluation
    requires e.Polled?
  {
    Evaluate(PreviousOf(RowOf("", e.settings, rec)), e.snapshot, e.settings)
  }

  function After(rec: MeterRecord, e: Event, limits: Limits): MeterRecord {
    match e
    case Polled(snapshot, now, settings, lostPush, failedAt) =>
      var evaluation := EvaluationOf(rec, e);
      var saved := RecordSuccess(rec, RowOf("", settings, rec), evaluation, snapshot, now, limits);
      if lostPush.Some? && lostPush.value < |evaluation.alerts|
      then RecordFailure(saved, "push failed", failedAt) else saved
    case Unreachable(reason, now) => RecordFailure(rec, reason, now)
    case RolledBack(_, reason, now) => RecordFailure(rec, reason, now)
    case Died(_) => rec
    case Checked(settings, now) => MarkAnomaly(rec, AnomalyDecision(RowOf("", settings, rec), rec.samples, now))
  }

  function Run(events: seq<Event>, limits: Limits): MeterRecord {
    if events == [] then UNSEEN
    else After(Run(events[..|events| - 1], limits), events[|events| - 1], limits)
  }

  /** The resolved reading instants of the committed polls, in order. */
  function Instants(events: seq<Event>): seq<int> {
    if events == [] then []
    else
      var e := events[|events| - 1];
      Instants(events[..|events| - 1])
      + (if e.Polled? then [InstantOf(e)] else [])
  }

  ghost predicate NonDecreasing(xs: seq<int>) {
    forall i, j :: 0 <= i < j < |xs| ==> xs[i] <= xs[j]
  }

  // ---------------------------------------------------------------- tiling

  /** The record remembers its last reading, and its samples lead there from the first. */
  ghost predicate TiledFrom(rec: MeterRecord, first: int) {
    && rec.state.Some? && rec.state.value.lastBalance.Some? && rec.state.value.lastBalanceAt.Some?
    && Chain(rec.samples, first, rec.state.value.lastBalanceAt.value)
  }

  /** Before the first committed poll there is no reading and no sample. */
  ghost predicate NeverRead(rec: MeterRecord) {
    && rec.samples == []
    && (rec.state.Some? ==> rec.state.value.lastBalance.None? && rec.state.value.lastBalanceAt.None?
                            && rec.state.value.severity == OK && rec.state.value.lastRechargeToken.None?)
  }

  ghost predicate TiledBy(rec: MeterRecord, instants: seq<int>) {
    if instants == [] then NeverRead(rec)
    else TiledFrom(rec, instants[0]) && rec.state.value.lastBalanceAt.value == instants[|instants| - 1]
  }

  /** Only a committed poll touches the samples, the last balance or its instant. */
  lemma QuietEventsKeepReadings(rec: MeterRecord, e: Event, limits: Limits)
    requires !e.Polled?
    ensures After(rec, e, limits).samples == rec.samples
    ensures NeverRead(rec) ==> NeverRead(After(rec, e, limits))
    ensures rec.state.Some? ==>
              && After(rec, e, limits).state.Some?
              && var st, st' := rec.state.value, After(rec, e, limits).state.value;
              && st'.lastBalance == st.lastBalance && st'.lastBalanceAt == st.lastBalanceAt
              && st'.severity == st.severity && st'.lastRechargeToken == st.lastRechargeToken
  {
  }

  lemma ChainHasNoWindowAtItsEnd(samples: seq<UsageSample>, from: int, to: int)
    requires Chain(samples, from, to)
    ensures !HasWindow(samples, to)
  {
    ChainBounds(samples, from, to);
    forall i | 0 <= i < |samples| ensures samples[i].windowStart != to {
      assert samples[i] in samples;
    }
  }

  function InstantOf(e: Event): int
    requires e.Polled?
  {
    ResolveReadingInstant(e.snapshot.balanceAsOf, e.now).at
  }

  function SampleOf(rec: MeterRecord, e: Event, limits: Limits): Option<UsageSample>
    requires e.Polled?
  {
    BuildSample(RowOf("", e.settings, rec), e.snapshot, InstantOf(e), limits)
  }

  /** What a committed poll leaves behind, lost push or not. */
  lemma PollEffect(rec: MeterRecord, e: Event, limits: Limits)
    requires e.Polled?
    ensures After(rec, e, limits).samples == InsertSample(rec.samples, SampleOf(rec, e, limits))
    ensures After(rec, e, limits).state.Some?
    ensures var st := After(rec, e, limits).state.value;
            && st.lastBalance == Some(e.snapshot.balance)
            && st.lastBalanceAt == Some(InstantOf(e))
            && st.severity == EvaluationOf(rec, e).severity
            && st.lastRechargeToken == EvaluationOf(rec, e).lastRechargeToken
            && st.lastAnomalyOn == (if rec.state.Some? then rec.state.value.lastAnomalyOn else None)
  {
  }

  lemma SampleSpans(rec: MeterRecord, e: Event, limits: Limits)
    requires e.Polled?
    requires rec.state.Some? && rec.state.value.lastBalance.Some? && rec.state.value.lastBalanceAt.Some?
    ensures var s, last := SampleOf(rec, e, limits), rec.state.value.lastBalanceAt.value;
            && (s.Some? <==> last < InstantOf(e))
            && (s.Some? ==> s.value.windowStart == last && s.value.windowEnd == InstantOf(e))
  {
  }

  /** One committed poll over an intact history: it stays intact exactly when the reading does not go back,
      and then the insert never meets an existing key. */
  lemma PollKeepsTiling(rec: MeterRecord, e: Event, first: int, limits: Limits)
    requires e.Polled? && TiledFrom(rec, first)
    ensures var last := rec.state.value.lastBalanceAt.value;
            && (TiledFrom(After(rec, e, limits), first) <==> last <= InstantOf(e))
            && !HasWindow(rec.samples, last)
            && (last < InstantOf(e) ==>
                  && SampleOf(rec, e, limits).Some?
                  && After(rec, e, limits).samples == rec.samples + [SampleOf(rec, e, limits).value])
            && (InstantOf(e) <= last ==> After(rec, e, limits).samples == rec.samples)
  {
    var last := rec.state.value.lastBalanceAt.value;
    PollEffect(rec, e, limits);
    SampleSpans(rec, e, limits);
    ChainHasNoWindowAtItsEnd(rec.samples, first, last);
    if last < InstantOf(e) {
      ChainOfOneMore(rec.samples, SampleOf(rec, e, limits).value, first, last);
    } else if TiledFrom(After(rec, e, limits), first) {
      ChainEndIsUnique(rec.samples, first, last, InstantOf(e));
    }
  }

  lemma ChainOfOneMore(samples: seq<UsageSample>, s: UsageSample, from: int, to: int)
    requires Chain(samples, from, to) && s.windowStart == to < s.windowEnd
    ensures Chain(samples + [s], from, s.windowEnd)
  {
  }

  lemma {:induction false} RunTilesWhileInstantsAdvance(events: seq<Event>, limits: Limits)
    requires NonDecreasing(Instants(events))
    ensures TiledBy(Run(events, limits), Instants(events))
  {
    if events != [] {
      var n := |events| - 1;
      var earlier := Instants(events[..n]);
      forall i, j | 0 <= i < j < |earlier| ensures earlier[i] <= earlier[j] {
        assert earlier[i] == Instants(events)[i] && earlier[j] == Instants(events)[j];
      }
      RunTilesWhileInstantsAdvance(events[..n], limits);
      if events[n].Polled? {
        assert earlier != [] ==> Instants(events)[|earlier| - 1] <= Instants(events)[|earlier|];
        PollKeepsTiledBy(Run(events[..n], limits), events[n], earlier, limits);
      } else {
        QuietEventsKeepReadings(Run(events[..n], limits), events[n], limits);
      }
    }
  }

  lemma PollKeepsTiledBy(rec: MeterRecord, e: Event, xs: seq<int>, limits: Limits)
    requires e.Polled? && TiledBy(rec, xs) && (xs != [] ==> xs[|xs| - 1] <= InstantOf(e))
    ensures TiledBy(After(rec, e, limits), xs + [InstantOf(e)])
  {
    if xs == [] {
      FirstPollTiles(rec, e, limits);
    } else {
      PollEffect(rec, e, limits);
      PollKeepsTiling(rec, e, xs[0], limits);
    }
  }

  lemma FirstPollTiles(rec: MeterRecord, e: Event, limits: Limits)
    requires e.Polled? && NeverRead(rec)
    ensures TiledBy(After(rec, e, limits), [InstantOf(e)])
  {
    PollEffect(rec, e, limits);
  }

  /** Every point of the history so far is intact. */
  ghost predicate AlwaysTiled(events: seq<Event>, limits: Limits) {
    forall n :: 0 <= n <= |events| ==> TiledBy(Run(events[..n], limits), Instants(events[..n]))
  }

  lemma {:induction false} InstantsOfPrefix(events: seq<Event>, n: nat)
    requires n <= |events|
    ensures Instants(events[..n]) <= Instants(events)
  {
    if n < |events| {
      InstantsOfPrefix(events[..|events| - 1], n);
      assert events[..|events| - 1][..n] == events[..n];
    } else {
      assert events[..n] == events;
    }
  }

  lemma LastPollDidNotGoBack(events: seq<Event>, limits: Limits)
    requires events != [] && events[|events| - 1].Polled? && Instants(events[..|events| - 1]) != []
    requires TiledBy(Run(events[..|events| - 1], limits), Instants(events[..|events| - 1]))
    requires TiledBy(Run(events, limits), Instants(events))
    ensures var xs := Instants(events[..|events| - 1]); xs[|xs| - 1] <= InstantOf(events[|events| - 1])
  {
    var n := |events| - 1;
    var rec, xs := Run(events[..n], limits), Instants(events[..n]);
    PollKeepsTiling(rec, events[n], xs[0], limits);
    PollEffect(rec, events[n], limits);
  }

  lemma {:induction false} IntactHistoriesNeverGoBack(events: seq<Event>, limits: Limits)
    requires AlwaysTiled(events, limits)
    ensures NonDecreasing(Instants(events))
  {
    if events != [] {
      var n := |events| - 1;
      forall k | 0 <= k <= n ensures TiledBy(Run(events[..n][..k], limits), Instants(events[..n][..k])) {
        assert events[..n][..k] == events[..k];
      }
      IntactHistoriesNeverGoBack(events[..n], limits);
      assert events[..n + 1] == events;
      if events[n].Polled? && Instants(events[..n]) != [] {
        LastPollDidNotGoBack(events, limits);
      }
    }
  }

  /** The tiling claim, with the hypothesis it needs: a history is intact throughout
      exactly when its resolved reading instants never go backwards. */
  lemma TilesExactlyWhenInstantsNeverGoBack(events: seq<Event>, limits: Limits)
    ensures AlwaysTiled(events, limits) <==> NonDecreasing(Instants(events))
  {
    if AlwaysTiled(events, limits) {
      IntactHistoriesNeverGoBack(events, limits);
    }
    if NonDecreasing(Instants(events)) {
      forall n | 0 <= n <= |events| ensures TiledBy(Run(events[..n], limits), Instants(events[..n])) {
        InstantsOfPrefix(events, n);
        RunTilesWhileInstantsAdvance(events[..n], limits);
      }
    }
  }

  /** What an intact history means for the table: from the first reading to the last, every instant is measured
      by exactly one sample, no sample lies outside, and no window ends after the last reading. */
  lemma IntactHistoryMeasuresOnce(events: seq<Event>, limits: Limits)
    requires NonDecreasing(Instants(events)) && Instants(events) != []
    ensures var rec, xs := Run(events, limits), Instants(events);
            && Tiles(rec.samples, xs[0], xs[|xs| - 1])
            && rec.state.Some? && rec.state.value.lastBalanceAt == Some(xs[|xs| - 1])
            && (forall s :: s in rec.samples ==> xs[0] <= s.windowStart < s.windowEnd <= xs[|xs| - 1])
  {
    var rec, xs := Run(events, limits), Instants(events);
    RunTilesWhileInstantsAdvance(events, limits);
    ChainTiles(rec.samples, xs[0], xs[|xs| - 1]);
    ChainBounds(rec.samples, xs[0], xs[|xs| - 1]);
  }

  // ---------------------------------------------------------------- the rows, wherever they begin

  ghost predicate HasReading(rec: MeterRecord) {
    rec.state.Some? && rec.state.value.lastBalance.Some? && rec.state.value.lastBalanceAt.Some?
  }

  function LastAt(rec: MeterRecord): int
    requires rec.state.Some? && rec.state.value.lastBalanceAt.Some?
  {
    rec.state.value.lastBalanceAt.value
  }

  /** The rows, if there are any, lead without a gap or an overlap to the stored instant the next window chains off. */
  ghost predicate RowsLeadToState(rec: MeterRecord) {
    rec.samples == []
    || (HasReading(rec) && Chain(rec.samples, rec.samples[0].windowStart, LastAt(rec)))
  }

  predicate StepsUp(xs: seq<int>, i: int) {
    0 <= i < |xs| - 1 && xs[i] < xs[i + 1]
  }

  predicate StepsBack(xs: seq<int>, j: int) {
    0 <= j < |xs| - 1 && xs[j + 1] < xs[j]
  }

  /** Some instant was later than the one before it. */
  ghost predicate Advanced(xs: seq<int>) {
    exists i :: StepsUp(xs, i)
  }

  /** After the first advance no instant is earlier than the one before it. */
  ghost predicate NeverBackOnceAdvanced(xs: seq<int>) {
    forall i, j :: i < j && StepsUp(xs, i) ==> !StepsBack(xs, j)
  }

  lemma StepsOfOneMore(xs: seq<int>, x: int, i: int)
    requires xs != []
    ensures StepsUp(xs + [x], i) <==> StepsUp(xs, i) || (i == |xs| - 1 && xs[i] < x)
    ensures StepsBack(xs + [x], i) <==> StepsBack(xs, i) || (i == |xs| - 1 && x < xs[i])
  {
  }

  lemma AdvancedOneMore(xs: seq<int>, x: int)
    requires xs != []
    ensures Advanced(xs + [x]) <==> Advanced(xs) || xs[|xs| - 1] < x
  {
    forall i ensures StepsUp(xs + [x], i) <==> StepsUp(xs, i) || (i == |xs| - 1 && xs[i] < x) {
      StepsOfOneMore(xs, x, i);
    }
  }

  lemma NeverBackOneMore(xs: seq<int>, x: int)
    requires xs != []
    ensures NeverBackOnceAdvanced(xs + [x]) <==> NeverBackOnceAdvanced(xs) && (Advanced(xs) ==> xs[|xs| - 1] <= x)
  {
    forall i ensures StepsUp(xs + [x], i) <==> StepsUp(xs, i) || (i == |xs| - 1 && xs[i] < x) {
      StepsOfOneMore(xs, x, i);
    }
    forall i ensures StepsBack(xs + [x], i) <==> StepsBack(xs, i) || (i == |xs| - 1 && x < xs[i]) {
      StepsOfOneMore(xs, x, i);
    }
  }

  lemma NeverBackInPrefix(xs: seq<int>, ys: seq<int>)
    requires xs <= ys && NeverBackOnceAdvanced(ys)
    ensures NeverBackOnceAdvanced(xs)
  {
    assert forall i :: StepsUp(xs, i) ==> StepsUp(ys, i);
    assert forall j :: StepsBack(xs, j) ==> StepsBack(ys, j);
  }

  /** What a record owes to the instants read so far: its last one, and rows exactly once one has advanced. */
  ghost predicate KeptUpWith(rec: MeterRecord, xs: seq<int>) {
    if xs == [] then NeverRead(rec)
    else
      && HasReading(rec) && LastAt(rec) == xs[|xs| - 1]
      && (rec.samples != [] <==> Advanced(xs))
  }

  lemma FirstPollKeepsUp(rec: MeterRecord, e: Event, limits: Limits)
    requires e.Polled? && NeverRead(rec)
    ensures KeptUpWith(After(rec, e, limits), [InstantOf(e)]) && After(rec, e, limits).samples == []
  {
    PollEffect(rec, e, limits);
  }

  /** One poll more: the rows lead to the state again exactly when the instant does not go back once one has advanced. */
  lemma LaterPollKeepsUp(rec: MeterRecord, e: Event, xs: seq<int>, limits: Limits)
    requires e.Polled? && xs != [] && KeptUpWith(rec, xs) && RowsLeadToState(rec)
    ensures RowsLeadToState(After(rec, e, limits)) <==> (Advanced(xs) ==> xs[|xs| - 1] <= InstantOf(e))
    ensures KeptUpWith(After(rec, e, limits), xs + [InstantOf(e)])
  {
    PollEffect(rec, e, limits);
    AdvancedOneMore(xs, InstantOf(e));
    if rec.samples == [] {
      SampleSpans(rec, e, limits);
      if SampleOf(rec, e, limits).Some? {
        ChainOfOneMore([], SampleOf(rec, e, limits).value, LastAt(rec), LastAt(rec));
      }
    } else {
      PollKeepsTiling(rec, e, rec.samples[0].windowStart, limits);
    }
  }

  lemma {:induction false} RowsLeadWhileNeverBack(events: seq<Event>, limits: Limits)
    requires NeverBackOnceAdvanced(Instants(events))
    ensures RowsLeadToState(Run(events, limits)) && KeptUpWith(Run(events, limits), Instants(events))
  {
    if events != [] {
      var n := |events| - 1;
      var e, xs := events[n], Instants(events[..n]);
      if e.Polled? && xs != [] {
        NeverBackOneMore(xs, InstantOf(e));
        RowsLeadWhileNeverBack(events[..n], limits);
        LaterPollKeepsUp(Run(events[..n], limits), e, xs, limits);
      } else {
        assert xs == [] || Instants(events) == xs;
        RowsLeadWhileNeverBack(events[..n], limits);
        if e.Polled? {
          FirstPollKeepsUp(Run(events[..n], limits), e, limits);
        } else {
          QuietEventsKeepReadings(Run(events[..n], limits), e, limits);
        }
      }
    }
  }

  /** The rows led to the state at every point of the history so far. */
  ghost predicate RowsAlwaysLead(events: seq<Event>, limits: Limits) {
    forall n :: 0 <= n <= |events| ==> RowsLeadToState(Run(events[..n], limits))
  }

  /** The last poll of a history that led to its state throughout did not go back once another had advanced. */
  lemma LastPollLeads(events: seq<Event>, limits: Limits)
    requires events != [] && events[|events| - 1].Polled? && Instants(events[..|events| - 1]) != []
    requires NeverBackOnceAdvanced(Instants(events[..|events| - 1])) && RowsLeadToState(Run(events, limits))
    ensures NeverBackOnceAdvanced(Instants(events))
  {
    var n := |events| - 1;
    var xs, at := Instants(events[..n]), InstantOf(events[n]);
    RowsLeadWhileNeverBack(events[..n], limits);
    LaterPollKeepsUp(Run(events[..n], limits), events[n], xs, limits);
    NeverBackOneMore(xs, at);
  }

  lemma {:induction false} RowsLeadOnlyWhileNeverBack(events: seq<Event>, limits: Limits)
    requires RowsAlwaysLead(events, limits)
    ensures NeverBackOnceAdvanced(Instants(events))
  {
    if events != [] {
      var n := |events| - 1;
      forall k | 0 <= k <= n ensures RowsLeadToState(Run(events[..n][..k], limits)) {
        assert events[..n][..k] == events[..k];
      }
      RowsLeadOnlyWhileNeverBack(events[..n], limits);
      assert events[..n + 1] == events;
      if events[n].Polled? && Instants(events[..n]) != [] {
        LastPollLeads(events, limits);
      } else {
        assert Instants(events) == if events[n].Polled? then [InstantOf(events[n])] else Instants(events[..n]);
      }
    }
  }

  /** The schema's claim as the code keeps it: at every point the rows chain without a gap or an overlap to the stored
      instant exactly when no reading instant goes back once one has advanced. */
  lemma RowsLeadExactlyWhenNeverBack(events: seq<Event>, limits: Limits)
    ensures RowsAlwaysLead(events, limits) <==> NeverBackOnceAdvanced(Instants(events))
  {
    if RowsAlwaysLead(events, limits) {
      RowsLeadOnlyWhileNeverBack(events, limits);
    }
    if NeverBackOnceAdvanced(Instants(events)) {
      forall n | 0 <= n <= |events| ensures RowsLeadToState(Run(events[..n], limits)) {
        InstantsOfPrefix(events, n);
        NeverBackInPrefix(Instants(events[..n]), Instants(events));
        RowsLeadWhileNeverBack(events[..n], limits);
      }
    }
  }

  // ---------------------------------------------------------------- the rows as a set

  /** A poll leaves the rows a tiling unless its window is stored away from their two ends. */
  ghost predicate JoinsOn(rec: MeterRecord, e: Event) {
    e.Polled? && HasReading(rec) && LastAt(rec) < InstantOf(e) ==>
      || rec.samples == []
      || HasWindow(rec.samples, LastAt(rec))
      || LastAt(rec) == Latest(rec.samples)
      || InstantOf(e) == Earliest(rec.samples)
  }

  lemma {:induction false} RowsAdvance(events: seq<Event>, limits: Limits)
    ensures Proper(Run(events, limits).samples)
  {
    if events != [] {
      var n := |events| - 1;
      var rec, e := Run(events[..n], limits), events[n];
      RowsAdvance(events[..n], limits);
      if e.Polled? {
        PollEffect(rec, e, limits);
        if HasReading(rec) { SampleSpans(rec, e, limits); }
      } else {
        QuietEventsKeepReadings(rec, e, limits);
      }
    }
  }

  /** One event: rows that tile a stretch, in whatever order they were stored, still tile one exactly when it joins on. */
  lemma RowsStep(rec: MeterRecord, e: Event, limits: Limits)
    requires Proper(rec.samples) && TileAStretch(rec.samples)
    ensures TileAStretch(After(rec, e, limits).samples) <==> JoinsOn(rec, e)
  {
    if !e.Polled? {
      QuietEventsKeepReadings(rec, e, limits);
    } else {
      PollEffect(rec, e, limits);
      if HasReading(rec) {
        SampleSpans(rec, e, limits);
        var sample := SampleOf(rec, e, limits);
        if sample.Some? && !HasWindow(rec.samples, LastAt(rec)) {
          StretchOfOneMore(rec.samples, sample.value);
        }
      }
    }
  }

  /** No gap and no overlap, said of the rows alone: they tile a stretch at every point of a history exactly when every
      poll of it joins on. */
  lemma {:induction false} RowsTileExactlyWhenPollsJoinOn(events: seq<Event>, limits: Limits)
    ensures (forall n :: 0 <= n <= |events| ==> TileAStretch(Run(events[..n], limits).samples))
       <==> (forall n :: 0 <= n < |events| ==> JoinsOn(Run(events[..n], limits), events[n]))
  {
    if forall n :: 0 <= n <= |events| ==> TileAStretch(Run(events[..n], limits).samples) {
      forall n | 0 <= n < |events| ensures JoinsOn(Run(events[..n], limits), events[n]) {
        RowsAdvance(events[..n], limits);
        RunOfPrefix(events, n, limits);
        assert TileAStretch(Run(events[..n], limits).samples) && TileAStretch(Run(events[..n + 1], limits).samples);
        RowsStep(Run(events[..n], limits), events[n], limits);
      }
    }
    if forall n :: 0 <= n < |events| ==> JoinsOn(Run(events[..n], limits), events[n]) {
      forall n | 0 <= n <= |events| ensures TileAStretch(Run(events[..n], limits).samples) {
        JoiningKeepsTiling(events, n, limits);
      }
    }
  }

  lemma RunOfPrefix(events: seq<Event>, n: nat, limits: Limits)
    requires n < |events|
    ensures Run(events[..n + 1], limits) == After(Run(events[..n], limits), events[n], limits)
  {
    assert events[..n + 1][..n] == events[..n];
  }

  lemma {:induction false} JoiningKeepsTiling(events: seq<Event>, n: nat, limits: Limits)
    requires n <= |events|
    requires forall k :: 0 <= k < |events| ==> JoinsOn(Run(events[..k], limits), events[k])
    ensures TileAStretch(Run(events[..n], limits).samples)
  {
    if n == 0 {
      assert Tiles([], 0, 0);
    } else {
      JoiningKeepsTiling(events, n - 1, limits);
      RowsAdvance(events[..n - 1], limits);
      RunOfPrefix(events, n - 1, limits);
      assert JoinsOn(Run(events[..n - 1], limits), events[n - 1]);
      RowsStep(Run(events[..n - 1], limits), events[n - 1], limits);
    }
  }

  // ---------------------------------------------------------------- failures in a row

  /** A push that throws after the commit turns the poll into a failure. */
  predicate PushLost(rec: MeterRecord, e: Event)
    requires e.Polled?
  {
    e.lostPush.Some? && e.lostPush.value < |EvaluationOf(rec, e).alerts|
  }

  /** The failures recorded since the last poll that got through. */
  function FailuresInARow(events: seq<Event>, limits: Limits): nat {
    if events == [] then 0
    else
      var n := |events| - 1;
      match events[n]
      case Polled(_, _, _, _, _) => if PushLost(Run(events[..n], limits), events[n]) then 1 else 0
      case Unreachable(_, _) => FailuresInARow(events[..n], limits) + 1
      case RolledBack(_, _, _) => FailuresInARow(events[..n], limits) + 1
      case Died(_) => FailuresInARow(events[..n], limits)
      case Checked(_, _) => FailuresInARow(events[..n], limits)
  }

  /** A meter that keeps failing is visible as such: the counter stored is the length of its losing streak,
      and a reason is stored exactly while there is one. */
  lemma {:induction false} FailuresAreCounted(events: seq<Event>, limits: Limits)
    ensures var st := Run(events, limits).state;
            if st.None? then FailuresInARow(events, limits) == 0
            else
              && st.value.consecutiveFailures == FailuresInARow(events, limits)
              && (st.value.lastFailureReason.Some? <==> FailuresInARow(events, limits) > 0)
  {
    if events != [] {
      FailuresAreCounted(events[..|events| - 1], limits);
    }
  }

  // ---------------------------------------------------------------- what the hypothesis and the transaction are for

  /** Whenever the stored instant lies short of the last row, the next poll to advance into the rows damages the table:
      either its window meets an old key and the measurement is discarded, or what it overlaps is measured twice. */
  lemma GoingBackDamages(rec: MeterRecord, onward: Event, from: int, to: int, limits: Limits)
    requires onward.Polled? && HasReading(rec) && Tiles(rec.samples, from, to)
    requires LastAt(rec) < to && LastAt(rec) < InstantOf(onward) && from < InstantOf(onward)
    ensures SampleOf(rec, onward, limits).Some?
    ensures var samples := After(rec, onward, limits).samples;
            if HasWindow(rec.samples, LastAt(rec)) then samples == rec.samples
            else forall t :: Max(LastAt(rec), from) < t <= Min(InstantOf(onward), to) ==> CoverCount(samples, t) == 2
  {
    PollEffect(rec, onward, limits);
    SampleSpans(rec, onward, limits);
    var s := SampleOf(rec, onward, limits).value;
    forall t | Max(LastAt(rec), from) < t <= Min(InstantOf(onward), to) ensures CoverCount(rec.samples + [s], t) == 2 {
      CoverCountOfOneMore(rec.samples, s, t);
      assert CoverCount(rec.samples, t) == 1;
    }
  }

  function PollOf(balance: real, stamp: Option<int>, now: int): (e: Event)
    ensures e.Polled?
  {
    Polled(Snapshot(balance, stamp, []), now, DEFAULT_SETTINGS, None, now)
  }

  lemma RunOfOneMore(events: seq<Event>, e: Event, limits: Limits)
    ensures Run(events + [e], limits) == After(Run(events, limits), e, limits)
    ensures Instants(events + [e]) == Instants(events) + (if e.Polled? then [InstantOf(e)] else [])
  {
    assert (events + [e])[..|events|] == events;
  }

  lemma OnePoll(a: Event, limits: Limits)
    requires a.Polled?
    ensures Instants([a]) == [InstantOf(a)]
    ensures var rec := Run([a], limits); HasReading(rec) && rec.samples == [] && LastAt(rec) == InstantOf(a)
  {
    RunOfOneMore([], a, limits);
    assert [] + [a] == [a];
    PollEffect(UNSEEN, a, limits);
  }

  /** Two polls that advance leave one sample. */
  lemma TwoPolls(a: Event, b: Event, limits: Limits)
    requires a.Polled? && b.Polled? && InstantOf(a) < InstantOf(b)
    ensures var rec := Run([a, b], limits);
            && TiledFrom(rec, InstantOf(a)) && LastAt(rec) == InstantOf(b)
            && |rec.samples| == 1 && rec.samples[0].windowStart == InstantOf(a)
    ensures Instants([a, b]) == [InstantOf(a), InstantOf(b)]
  {
    OnePoll(a, limits);
    RunOfOneMore([a], b, limits);
    assert [a] + [b] == [a, b];
    SecondPoll(Run([a], limits), b, limits);
  }

  lemma SecondPoll(rec: MeterRecord, b: Event, limits: Limits)
    requires HasReading(rec) && rec.samples == [] && b.Polled? && LastAt(rec) < InstantOf(b)
    ensures var next := After(rec, b, limits);
            && TiledFrom(next, LastAt(rec)) && LastAt(next) == InstantOf(b)
            && |next.samples| == 1 && next.samples[0].windowStart == LastAt(rec)
  {
    PollEffect(rec, b, limits);
    PollKeepsTiling(rec, b, LastAt(rec), limits);
    SampleSpans(rec, b, limits);
  }

  /** A poll that goes back between the two leaves the sample and moves the clock into it. */
  lemma RegressKeepsTheRows(rec: MeterRecord, c: Event, first: int, limits: Limits)
    requires TiledFrom(rec, first) && |rec.samples| == 1 && rec.samples[0].windowStart == first
    requires c.Polled? && first < InstantOf(c) < LastAt(rec)
    ensures var next := After(rec, c, limits);
            && HasReading(next) && LastAt(next) == InstantOf(c) && !HasWindow(next.samples, InstantOf(c))
            && Tiles(next.samples, first, LastAt(rec))
  {
    PollKeepsTiling(rec, c, first, limits);
    PollEffect(rec, c, limits);
    ChainTiles(rec.samples, first, LastAt(rec));
  }

  /** Two polls that advance and one that goes back between them. */
  lemma AdvanceAndGoBack(a: Event, b: Event, c: Event, limits: Limits) returns (events: seq<Event>)
    requires a.Polled? && b.Polled? && c.Polled? && InstantOf(a) < InstantOf(c) < InstantOf(b)
    ensures Instants(events) == [InstantOf(a), InstantOf(b), InstantOf(c)]
    ensures var rec := Run(events, limits);
            && HasReading(rec) && LastAt(rec) == InstantOf(c) && !HasWindow(rec.samples, InstantOf(c))
            && Tiles(rec.samples, InstantOf(a), InstantOf(b))
  {
    events := [a, b];
    TwoPolls(a, b, limits);
    RunOfOneMore(events, c, limits);
    RegressKeepsTheRows(Run(events, limits), c, InstantOf(a), limits);
    events := events + [c];
  }

  /** Whatever advances after that measures the stretch gone back over a second time. */
  lemma AdvanceBackAdvance(a: Event, b: Event, c: Event, d: Event, limits: Limits) returns (events: seq<Event>)
    requires a.Polled? && b.Polled? && c.Polled? && d.Polled?
    requires InstantOf(a) < InstantOf(c) < InstantOf(b) < InstantOf(d)
    ensures Instants(events) == [InstantOf(a), InstantOf(b), InstantOf(c), InstantOf(d)]
    ensures forall t :: InstantOf(c) < t <= InstantOf(b) ==> CoverCount(Run(events, limits).samples, t) == 2
  {
    events := AdvanceAndGoBack(a, b, c, limits);
    RunOfOneMore(events, d, limits);
    GoingBackDamages(Run(events, limits), d, InstantOf(a), InstantOf(b), limits);
    events := events + [d];
  }

  /** Such a run needs nothing unusual: a stamp, a poll that found no stamp, an older stamp, a newer one.
      The ninth hour ends up measured twice. */
  lemma MissingStampCanBreakTiling(limits: Limits) returns (events: seq<Event>)
    ensures Instants(events) == [0, 12 * MS_PER_HOUR, 6 * MS_PER_HOUR, 24 * MS_PER_HOUR]
    ensures CoverCount(Run(events, limits).samples, 9 * MS_PER_HOUR) == 2
  {
    var a, b := PollOf(500.0, Some(0), 0), PollOf(480.0, None, 12 * MS_PER_HOUR);
    var c, d := PollOf(490.0, Some(6 * 3600), 18 * MS_PER_HOUR), PollOf(460.0, Some(24 * 3600), 24 * MS_PER_HOUR);
    events := AdvanceBackAdvance(a, b, c, d, limits);
  }

  /** The sample's insert alone, as if it were committed on its own before the process died. */
  function SampleCommittedAlone(rec: MeterRecord, e: Event, limits: Limits): MeterRecord
    requires e.Polled?
  {
    rec.(samples := InsertSample(rec.samples, SampleOf(rec, e, limits)))
  }

  /** Why both writes share a transaction: with the sample committed and the state not, the next window to be measured
      is always discarded as a replay, and the time it covered is never measured. */
  lemma SplitCommitsLoseAWindow(rec: MeterRecord, halfDone: Event, next: Event, first: int, limits: Limits)
    requires TiledFrom(rec, first) && halfDone.Polled? && next.Polled?
    requires rec.state.value.lastBalanceAt.value < InstantOf(halfDone) < InstantOf(next)
    ensures var half := SampleCommittedAlone(rec, halfDone, limits);
            var final := After(half, next, limits);
            && SampleOf(half, next, limits).Some?
            && final.samples == half.samples
            && final.state.value.lastBalanceAt == Some(InstantOf(next))
            && forall t :: InstantOf(halfDone) < t <= InstantOf(next) ==> CoverCount(final.samples, t) == 0
  {
    var last := rec.state.value.lastBalanceAt.value;
    var half := SampleCommittedAlone(rec, halfDone, limits);
    PollKeepsTiling(rec, halfDone, first, limits);
    SampleSpans(rec, halfDone, limits);
    PollEffect(rec, halfDone, limits);
    SampleSpans(half, next, limits);
    PollEffect(half, next, limits);
    var s := SampleOf(rec, halfDone, limits).value;
    assert half.samples == rec.samples + [s];
    assert half.samples[|rec.samples|].windowStart == last;
    ChainTiles(rec.samples, first, last);
    forall t | InstantOf(halfDone) < t <= InstantOf(next) ensures CoverCount(half.samples, t) == 0 {
      CoverCountOfOneMore(rec.samples, s, t);
      assert CoverCount(rec.samples, t) == 0;
    }
  }
}
