/** Whole runs of password-recovery calls for one email: what the caller sees, and how fast anything can happen. */
module PasswordResetRuns {
  import opened Prelude
  import opened PasswordResetPolicy
  import opened PasswordReset

  /** One call. `known` says whether the email has a credential account when the call looks;
      `pick` is the row the newest-first query returned. */
  datatype Call =
    | Request(now: int, known: bool, code: string)
    | Reset(now: int, known: bool, guess: string, pick: Option<nat>)

  datatype Outcome = OfRequest(request: RequestOutcome) | OfReset(reset: ResetOutcome)

  predicate InRange(rows: seq<Row>, pick: Option<nat>) {
    pick.Some? ==> pick.value < |rows|
  }

  function Apply(rows: seq<Row>, call: Call): seq<Row> {
    match call
    case Request(now, known, code) => Requested(rows, known, now, code)
    case Reset(now, known, guess, pick) => if InRange(rows, pick) then Resetted(rows, pick, now, guess, known) else rows
  }

  function OutcomeOf(rows: seq<Row>, call: Call): Outcome {
    match call
    case Request(now, known, _) => OfRequest(RequestOutcomeOf(rows, known, now))
    case Reset(now, known, guess, pick) =>
      OfReset(ResetOutcomeOf(if InRange(rows, pick) then RowAt(rows, pick) else None, now, guess, known))
  }

  function RowsAfter(calls: seq<Call>): seq<Row> {
    if calls == [] then [] else Apply(RowsAfter(calls[..|calls| - 1]), calls[|calls| - 1])
  }

  function Outcomes(calls: seq<Call>): (r: seq<Outcome>)
    ensures |r| == |calls|
  {
    if calls == [] then []
    else
      var n := |calls| - 1;
      Outcomes(calls[..n]) + [OutcomeOf(RowsAfter(calls[..n]), calls[n])]
  }

  /** The clock never goes back, and every query returns a row of greatest creation instant, whichever it likes. */
  ghost predicate ValidRun(calls: seq<Call>) {
    calls == [] ||
    var n := |calls| - 1;
    && ValidRun(calls[..n])
    && (n > 0 ==> calls[n - 1].now <= calls[n].now)
    && (calls[n].Reset? ==> Picks(RowsAfter(calls[..n]), calls[n].pick))
  }

  function Clock(calls: seq<Call>): int {
    if calls == [] then 0 else calls[|calls| - 1].now
  }

  // ---------------------------------------------------------------- the single slot

  function SpecAfter(calls: seq<Call>): Spec {
    if calls == [] then Spec(Empty, [])
    else
      match calls[|calls| - 1]
      case Request(now, known, code) => SpecRequested(SpecAfter(calls[..|calls| - 1]), known, now, code)
      case Reset(now, known, guess, _) => SpecReset(SpecAfter(calls[..|calls| - 1]), now, guess, known)
  }

  function SpecOutcomes(calls: seq<Call>): (r: seq<Outcome>)
    ensures |r| == |calls|
  {
    if calls == [] then []
    else
      var n := |calls| - 1;
      SpecOutcomes(calls[..n])
      + [match calls[n]
         case Request(now, known, _) => OfRequest(SpecRequestOutcome(SpecAfter(calls[..n]), known, now))
         case Reset(now, known, guess, _) => OfReset(SpecResetOutcome(SpecAfter(calls[..n]).slot, now, guess, known))]
  }

  /** The table as it stands before the last call satisfies its invariant at the last call's clock. */
  lemma {:induction false} RunRefines(calls: seq<Call>)
    requires ValidRun(calls)
    ensures Inv(RowsAfter(calls), Clock(calls))
    ensures Abstract(RowsAfter(calls)) == SpecAfter(calls)
    ensures Outcomes(calls) == SpecOutcomes(calls)
  {
    if calls != [] {
      var n := |calls| - 1;
      var rows, call := RowsAfter(calls[..n]), calls[n];
      RunRefines(calls[..n]);
      var clock := if n == 0 then call.now else Clock(calls[..n]);
      assert Inv(rows, clock);
      match call {
        case Request(now, known, code) => RequestRefines(rows, clock, known, now, code);
        case Reset(now, known, guess, pick) => ResetRefines(rows, clock, pick, now, guess, known);
      }
    }
  }

  /** The many rows behave like one slot: every call of every run has the outcome the slot gives it; at most one row
      is live, and it is the strictly newest. */
  lemma ManyRowsAreOneSlot(calls: seq<Call>)
    requires ValidRun(calls)
    ensures Outcomes(calls) == SpecOutcomes(calls)
    ensures var rows := RowsAfter(calls);
            forall i :: 0 <= i < |rows| && rows[i].consumedAt.None? ==>
              i == |rows| - 1 && forall j :: 0 <= j < i ==> rows[j].createdAt < rows[i].createdAt
  {
    RunRefines(calls);
    var xs := Created(RowsAfter(calls));
    assert forall i, j :: 0 <= j < i < |xs| ==> xs[i] - xs[j] >= RESEND_COOLDOWN_MS;
  }

  // ---------------------------------------------------------------- what a code is good for

  /** Call `i` issued a code, and no later call issued another or redeemed one. */
  ghost predicate NewestUnspent(calls: seq<Call>, i: nat) {
    && i < |calls| && calls[i].Request? && SpecOutcomes(calls)[i] == OfRequest(Issued)
    && forall k :: i < k < |calls| ==>
         SpecOutcomes(calls)[k] != OfRequest(Issued) && SpecOutcomes(calls)[k] != OfReset(Redeemed)
  }

  /** The guesses that missed after call `i`. */
  function MissedSince(outcomes: seq<Outcome>, i: nat): nat {
    if |outcomes| <= i + 1 then 0
    else MissedSince(outcomes[..|outcomes| - 1], i) + (if outcomes[|outcomes| - 1] == OfReset(Mismatch) then 1 else 0)
  }

  lemma NewestUnspentSoFar(calls: seq<Call>, i: nat)
    requires calls != [] && NewestUnspent(calls[..|calls| - 1], i)
    requires SpecOutcomes(calls)[|calls| - 1] != OfRequest(Issued) && SpecOutcomes(calls)[|calls| - 1] != OfReset(Redeemed)
    ensures NewestUnspent(calls, i)
    ensures MissedSince(SpecOutcomes(calls), i) == MissedSince(SpecOutcomes(calls[..|calls| - 1]), i)
              + (if SpecOutcomes(calls)[|calls| - 1] == OfReset(Mismatch) then 1 else 0)
  {
  }

  /** A live slot is the newest code issued, with fifteen minutes to live from then and every miss since on its count. */
  lemma {:induction false} LiveIsNewest(calls: seq<Call>) returns (i: nat)
    requires SpecAfter(calls).slot.Live?
    ensures NewestUnspent(calls, i)
    ensures var slot := SpecAfter(calls).slot;
            && slot.code == calls[i].code && slot.expiresAt == calls[i].now + 900_000
            && slot.misses == MissedSince(SpecOutcomes(calls), i)
  {
    var n := |calls| - 1;
    if SpecOutcomes(calls)[n] == OfRequest(Issued) {
      i := n;
    } else {
      i := LiveIsNewest(calls[..n]);
      NewestUnspentSoFar(calls, i);
    }
  }

  /** A code signs in exactly once, and only while it may: a call that redeems repeats the newest code issued, less than
      fifteen minutes after it was, with fewer than five misses in between and no redemption before it. */
  lemma RedeemedOnceInTime(calls: seq<Call>) returns (i: nat)
    requires ValidRun(calls) && calls != [] && Outcomes(calls)[|calls| - 1] == OfReset(Redeemed)
    ensures NewestUnspent(calls[..|calls| - 1], i)
    ensures var last := calls[|calls| - 1];
            && last.guess == calls[i].code && calls[i].now <= last.now < calls[i].now + 900_000
            && MissedSince(Outcomes(calls), i) < 5
  {
    var n := |calls| - 1;
    RunRefines(calls);
    i := LiveIsNewest(calls[..n]);
    ClockAdvances(calls, i);
    assert Outcomes(calls)[..n] == SpecOutcomes(calls[..n]);
  }

  lemma {:induction false} ClockAdvances(calls: seq<Call>, i: nat)
    requires ValidRun(calls) && i < |calls|
    ensures calls[i].now <= calls[|calls| - 1].now
  {
    if i < |calls| - 1 {
      ClockAdvances(calls[..|calls| - 1], i);
    }
  }

  // ---------------------------------------------------------------- how fast codes are issued

  /** How many of the instants lie in `[start, end)`. */
  function CountIn(xs: seq<int>, start: int, end: int): nat {
    if xs == [] then 0
    else CountIn(xs[..|xs| - 1], start, end) + (if start <= xs[|xs| - 1] < end then 1 else 0)
  }

  /** How many of the (ascending) instants lie before `t`. */
  function CountBefore(xs: seq<int>, t: int): nat {
    if xs == [] then 0 else CountBefore(xs[..|xs| - 1], t) + (if xs[|xs| - 1] < t then 1 else 0)
  }

  lemma {:induction false} CountBeforeSplits(xs: seq<int>, t: int)
    requires Spaced(xs)
    ensures CountBefore(xs, t) <= |xs|
    ensures forall i :: 0 <= i < |xs| ==> (xs[i] < t <==> i < CountBefore(xs, t))
  {
    if xs != [] {
      var n := |xs| - 1;
      assert forall i, j :: 0 <= i < j < n ==> xs[..n][j] - xs[..n][i] == xs[j] - xs[i];
      CountBeforeSplits(xs[..n], t);
      assert forall i :: 0 <= i < n ==> xs[n] - xs[i] >= RESEND_COOLDOWN_MS;
      assert xs[n] < t ==> forall i :: 0 <= i < n ==> xs[..n][i] < t;
    }
  }

  lemma {:induction false} CountInIsDifference(xs: seq<int>, start: int, end: int)
    requires start <= end
    ensures CountIn(xs, start, end) == CountBefore(xs, end) - CountBefore(xs, start)
  {
    if xs != [] {
      CountInIsDifference(xs[..|xs| - 1], start, end);
    }
  }

  lemma QuotaOfAWindow(xs: seq<int>, start: int)
    requires Spaced(xs) && WithinQuota(xs)
    ensures CountBefore(xs, start + REQUEST_WINDOW_MS) - CountBefore(xs, start) <= MAX_REQUESTS_PER_WINDOW
  {
    CountBeforeSplits(xs, start);
    CountBeforeSplits(xs, start + REQUEST_WINDOW_MS);
    var p, q := CountBefore(xs, start), CountBefore(xs, start + REQUEST_WINDOW_MS);
    if p + MAX_REQUESTS_PER_WINDOW < |xs| {
      assert xs[p + MAX_REQUESTS_PER_WINDOW] - xs[p] >= REQUEST_WINDOW_MS;
    }
  }

  /** Codes for one email are issued at least a minute apart, and at most five fall in any half-open hour. */
  lemma IssueRates(calls: seq<Call>, start: int)
    requires ValidRun(calls)
    ensures var issued := Created(RowsAfter(calls));
            && issued == SpecAfter(calls).issued
            && (forall i, j :: 0 <= i < j < |issued| ==> issued[j] - issued[i] >= 60_000)
            && CountIn(issued, start, start + 3_600_000) <= 5
  {
    RunRefines(calls);
    CountInIsDifference(SpecAfter(calls).issued, start, start + REQUEST_WINDOW_MS);
    QuotaOfAWindow(SpecAfter(calls).issued, start);
  }

  // ---------------------------------------------------------------- how fast codes are guessed

  /** A recorded mismatch: when, and against which row. */
  datatype Miss = Miss(at: int, row: nat)

  /** The mismatch one call records, if it records one. */
  function MissOf(rows: seq<Row>, call: Call): seq<Miss> {
    if OutcomeOf(rows, call) == OfReset(Mismatch) && call.pick.Some? then [Miss(call.now, call.pick.value)] else []
  }

  function Misses(calls: seq<Call>): seq<Miss> {
    if calls == [] then []
    else Misses(calls[..|calls| - 1]) + MissOf(RowsAfter(calls[..|calls| - 1]), calls[|calls| - 1])
  }

  function MissesAgainst(misses: seq<Miss>, row: nat): nat {
    if misses == [] then 0
    else MissesAgainst(misses[..|misses| - 1], row) + (if misses[|misses| - 1].row == row then 1 else 0)
  }

  function MissesIn(misses: seq<Miss>, start: int, end: int): nat {
    if misses == [] then 0
    else MissesIn(misses[..|misses| - 1], start, end) + (if start <= misses[|misses| - 1].at < end then 1 else 0)
  }

  function MissesBetweenRows(misses: seq<Miss>, lo: int, hi: int): nat {
    if misses == [] then 0
    else MissesBetweenRows(misses[..|misses| - 1], lo, hi) + (if lo <= misses[|misses| - 1].row < hi then 1 else 0)
  }

  /** A miss against a row happens after it was issued and not after the next one was. */
  ghost predicate Dated(misses: seq<Miss>, rows: seq<Row>, clock: int) {
    forall m :: m in misses ==>
      && m.row < |rows| && rows[m.row].createdAt <= m.at <= clock
      && (m.row + 1 < |rows| ==> m.at <= rows[m.row + 1].createdAt)
  }

  ghost predicate CountedByAttempts(misses: seq<Miss>, rows: seq<Row>) {
    forall i: nat :: MissesAgainst(misses, i) == if i < |rows| then rows[i].attempts else 0
  }

  lemma MissesAgainstOneMore(misses: seq<Miss>, m: Miss, row: nat)
    ensures MissesAgainst(misses + [m], row) == MissesAgainst(misses, row) + (if m.row == row then 1 else 0)
  {
  }

  ghost predicate Tallied(misses: seq<Miss>, rows: seq<Row>, clock: int) {
    Dated(misses, rows, clock) && CountedByAttempts(misses, rows)
  }

  lemma RequestKeepsTally(misses: seq<Miss>, rows: seq<Row>, clock: int, call: Call)
    requires call.Request? && Tallied(misses, rows, clock) && clock <= call.now
    ensures Tallied(misses, Apply(rows, call), call.now)
  {
  }

  lemma ResetKeepsTally(misses: seq<Miss>, rows: seq<Row>, clock: int, call: Call)
    requires call.Reset? && Tallied(misses, rows, clock) && clock <= call.now
    requires InRange(rows, call.pick) && OutcomeOf(rows, call) != OfReset(Mismatch)
    ensures Tallied(misses, Apply(rows, call), call.now)
  {
    forall i: nat
      ensures MissesAgainst(misses, i) == if i < |Apply(rows, call)| then Apply(rows, call)[i].attempts else 0
    {
      if call.pick == Some(i) {
        assert Apply(rows, call)[i].attempts == rows[i].attempts;
      }
    }
  }

  lemma MismatchTallies(misses: seq<Miss>, rows: seq<Row>, clock: int, call: Call)
    requires call.Reset? && Tallied(misses, rows, clock) && clock <= call.now && Inv(rows, clock)
    requires call.pick.Some? && call.pick.value == |rows| - 1
    requires OutcomeOf(rows, call) == OfReset(Mismatch)
    ensures Tallied(misses + [Miss(call.now, call.pick.value)], Apply(rows, call), call.now)
  {
    var more := misses + [Miss(call.now, call.pick.value)];
    forall i: nat
      ensures MissesAgainst(more, i) == if i < |Apply(rows, call)| then Apply(rows, call)[i].attempts else 0
    {
      MissesAgainstOneMore(misses, Miss(call.now, call.pick.value), i);
    }
  }

  lemma TallyStep(misses: seq<Miss>, rows: seq<Row>, clock: int, call: Call)
    requires Tallied(misses, rows, clock) && clock <= call.now && Inv(rows, clock)
    requires call.Reset? ==> Picks(rows, call.pick)
    ensures Tallied(misses + MissOf(rows, call), Apply(rows, call), call.now)
  {
    assert misses + [] == misses;
    if call.Request? {
      RequestKeepsTally(misses, rows, clock, call);
    } else {
      NewestIsLast(rows, clock, call.pick);
      if OutcomeOf(rows, call) == OfReset(Mismatch) {
        MismatchTallies(misses, rows, clock, call);
      } else {
        ResetKeepsTally(misses, rows, clock, call);
      }
    }
  }

  /** Each row's attempt counter is the number of mismatches recorded against it. */
  lemma {:induction false} AttemptsAreMisses(calls: seq<Call>)
    requires ValidRun(calls)
    ensures Tallied(Misses(calls), RowsAfter(calls), Clock(calls))
  {
    if calls != [] {
      var n := |calls| - 1;
      var clock := if n == 0 then calls[n].now else Clock(calls[..n]);
      AttemptsAreMisses(calls[..n]);
      RunRefines(calls[..n]);
      TallyStep(Misses(calls[..n]), RowsAfter(calls[..n]), clock, calls[n]);
    }
  }

  lemma {:induction false} RowsSplit(misses: seq<Miss>, lo: nat, hi: nat)
    requires lo <= hi
    ensures MissesBetweenRows(misses, lo, hi + 1) == MissesBetweenRows(misses, lo, hi) + MissesAgainst(misses, hi)
    ensures MissesBetweenRows(misses, lo, lo) == 0
  {
    if misses != [] {
      RowsSplit(misses[..|misses| - 1], lo, hi);
    }
  }

  /** So many rows, so many misses. */
  lemma {:induction false} MissesPerRow(misses: seq<Miss>, lo: nat, hi: nat)
    requires lo <= hi && forall i: nat :: MissesAgainst(misses, i) <= MAX_ATTEMPTS
    ensures MissesBetweenRows(misses, lo, hi) <= MAX_ATTEMPTS * (hi - lo)
    decreases hi - lo
  {
    if lo == hi {
      RowsSplit(misses, lo, lo);
    } else {
      MissesPerRow(misses, lo, hi - 1);
      RowsSplit(misses, lo, hi - 1);
    }
  }

  /** A miss inside an hour is against a code issued in it, or against the one code carried into it. */
  lemma {:induction false} MissesInWindowAreBetweenRows(misses: seq<Miss>, rows: seq<Row>, clock: int, start: int, end: int)
    requires Dated(misses, rows, clock) && Spaced(Created(rows))
    ensures var xs := Created(rows);
            MissesIn(misses, start, end)
              <= MissesBetweenRows(misses, CountBefore(xs, start) - 1, CountBefore(xs, end))
  {
    if misses != [] {
      var n, xs := |misses| - 1, Created(rows);
      assert misses[n] in misses;
      MissesInWindowAreBetweenRows(misses[..n], rows, clock, start, end);
      CountBeforeSplits(xs, start);
      CountBeforeSplits(xs, end);
      assert xs[misses[n].row] == rows[misses[n].row].createdAt;
    }
  }

  /** At most thirty mismatches are recorded in any half-open hour: five for each of the five codes it can hold
      and for the one carried into it. */
  lemma GuessRate(calls: seq<Call>, start: int)
    requires ValidRun(calls)
    ensures MissesIn(Misses(calls), start, start + 3_600_000) <= 30
  {
    var rows, misses := RowsAfter(calls), Misses(calls);
    var xs, end := Created(rows), start + REQUEST_WINDOW_MS;
    RunRefines(calls);
    AttemptsAreMisses(calls);
    MissesInWindowAreBetweenRows(misses, rows, Clock(calls), start, end);
    QuotaOfAWindow(xs, start);
    CountInIsDifference(xs, start, end);
    var lo, hi := Max(0, CountBefore(xs, start) - 1), CountBefore(xs, end);
    NoNegativeRows(misses, CountBefore(xs, start) - 1, hi);
    MissesPerRow(misses, lo, Max(lo, hi));
    WiderRows(misses, lo, hi, Max(lo, hi));
  }

  lemma {:induction false} NoNegativeRows(misses: seq<Miss>, lo: int, hi: int)
    ensures MissesBetweenRows(misses, lo, hi) == MissesBetweenRows(misses, Max(0, lo), hi)
  {
    if misses != [] {
      NoNegativeRows(misses[..|misses| - 1], lo, hi);
    }
  }

  lemma {:induction false} WiderRows(misses: seq<Miss>, lo: int, hi: int, wider: int)
    requires hi <= wider
    ensures MissesBetweenRows(misses, lo, hi) <= MissesBetweenRows(misses, lo, wider)
  {
    if misses != [] {
      WiderRows(misses[..|misses| - 1], lo, hi, wider);
    }
  }

  // ---------------------------------------------------------------- advice

  /** The throttle a known email would meet. */
  function ThrottleAt(rows: seq<Row>, now: int): Option<Throttle> {
    match RequestOutcomeOf(rows, true, now)
    case Throttled(t) => Some(t)
    case _ => None
  }

  lemma ThrottleOfInvariantRows(rows: seq<Row>, clock: int, now: int)
    requires Inv(rows, clock)
    ensures ThrottleAt(rows, now) == ThrottleFor(NewestFirstOf(Created(rows)), now)
  {
    SameThrottle(rows, clock, now);
  }

  lemma AdviceOnReversed(issued: seq<int>, now: int, wait: nat)
    requires Spaced(issued) && WithinQuota(issued) && forall t :: t in issued ==> t <= now
    requires ThrottleFor(NewestFirstOf(issued), now).Some?
    ensures AdviceIsExact(ThrottleFor(NewestFirstOf(issued), now).value,
                          ThrottleFor(NewestFirstOf(issued), now + wait * 1000), wait)
  {
    SpacedIsNewestFirst(issued);
    InWindowSize(issued, now);
    RetryAdviceIsExact(NewestFirstOf(issued), now, wait);
  }

  lemma AdviceOnRows(rows: seq<Row>, clock: int, now: int, wait: nat)
    requires Inv(rows, clock) && clock <= now && ThrottleAt(rows, now).Some?
    ensures AdviceIsExact(ThrottleAt(rows, now).value, ThrottleAt(rows, now + wait * 1000), wait)
  {
    ThrottleOfInvariantRows(rows, clock, now);
    ThrottleOfInvariantRows(rows, clock, now + wait * 1000);
    AdviceOnReversed(Created(rows), now, wait);
  }

  /** Along every run the retry advice is exact: with no new code issued, a caller told to wait is refused for the same
      reason at every whole second before, is never refused for that reason from then on, and after a quota wait
      is not refused at all. */
  lemma AdviceIsExactInEveryRun(calls: seq<Call>, now: int, wait: nat)
    requires ValidRun(calls) && (calls != [] ==> Clock(calls) <= now)
    requires ThrottleAt(RowsAfter(calls), now).Some?
    ensures AdviceIsExact(ThrottleAt(RowsAfter(calls), now).value, ThrottleAt(RowsAfter(calls), now + wait * 1000), wait)
  {
    RunRefines(calls);
    AdviceOnRows(RowsAfter(calls), if calls == [] then now else Clock(calls), now, wait);
  }
}
