/** Password recovery over the verification rows of one email, with every call taken as one atomic step,
    and the single slot that the many rows behave like. */
module PasswordReset {
  import opened Prelude
  import opened PasswordResetPolicy

  // ---------------------------------------------------------------- the two calls

  datatype RequestOutcome = UnknownEmail | Throttled(throttle: Throttle) | Issued

  datatype ResetOutcome = Rejected(reason: Rejection) | Mismatch | AccountGone | Redeemed

  function Created(rows: seq<Row>): (r: seq<int>)
    ensures |r| == |rows| && forall i :: 0 <= i < |rows| ==> r[i] == rows[i].createdAt
  {
    seq(|rows|, i requires 0 <= i < |rows| => rows[i].createdAt)
  }

  /** Every row still live is marked as consumed. */
  function Retired(rows: seq<Row>, now: int): (r: seq<Row>)
    ensures |r| == |rows|
    ensures forall i :: 0 <= i < |rows| ==>
              r[i] == if rows[i].consumedAt.None? then rows[i].(consumedAt := Some(now)) else rows[i]
  {
    seq(|rows|, i requires 0 <= i < |rows| =>
      if rows[i].consumedAt.None? then rows[i].(consumedAt := Some(now)) else rows[i])
  }

  function Fresh(now: int, code: string): Row {
    Row(code, now, CodeExpiryFrom(now), None, 0)
  }

  function RequestOutcomeOf(rows: seq<Row>, known: bool, now: int): RequestOutcome {
    if !known then UnknownEmail
    else
      var throttle := ThrottleFor(Recent(Created(rows), now), now);
      if throttle.Some? then Throttled(throttle.value) else Issued
  }

  /** Retire-then-insert, in one transaction, when nothing throttles. */
  function Requested(rows: seq<Row>, known: bool, now: int, code: string): seq<Row> {
    if RequestOutcomeOf(rows, known, now) == Issued then Retired(rows, now) + [Fresh(now, code)] else rows
  }

  /** What `ORDER BY created_at DESC LIMIT 1` may return: nothing, or any row of greatest creation instant. */
  ghost predicate Picks(rows: seq<Row>, pick: Option<nat>) {
    match pick
    case None => rows == []
    case Some(i) => i < |rows| && forall j :: 0 <= j < |rows| ==> rows[j].createdAt <= rows[i].createdAt
  }

  function RowAt(rows: seq<Row>, pick: Option<nat>): Option<Row>
    requires pick.Some? ==> pick.value < |rows|
  {
    if pick.None? then None else Some(rows[pick.value])
  }

  function ResetOutcomeOf(pending: Option<Row>, now: int, guess: string, known: bool): ResetOutcome {
    var rejection := RejectionFor(pending, now);
    if rejection.Some? then Rejected(rejection.value)
    else if pending.value.value != guess then Mismatch
    else if !known then AccountGone
    else Redeemed
  }

  function ResetRow(row: Row, now: int, outcome: ResetOutcome): Row {
    match outcome
    case Mismatch => row.(attempts := row.attempts + 1)
    case Redeemed => row.(consumedAt := Some(now))
    case _ => row
  }

  function Resetted(rows: seq<Row>, pick: Option<nat>, now: int, guess: string, known: bool): seq<Row>
    requires pick.Some? ==> pick.value < |rows|
  {
    if pick.None? then rows
    else rows[pick.value := ResetRow(rows[pick.value], now, ResetOutcomeOf(RowAt(rows, pick), now, guess, known))]
  }

  // ---------------------------------------------------------------- the slot they amount to

  /** One code at most: none yet, one that is spent, or one that is live. */
  datatype Slot = Empty | Spent | Live(code: string, expiresAt: int, misses: nat)

  /** The specification: a slot, and the instants at which codes were issued. */
  datatype Spec = Spec(slot: Slot, issued: seq<int>)

  function NewestFirstOf(issued: seq<int>): (r: seq<int>)
    ensures |r| == |issued| && forall i :: 0 <= i < |r| ==> r[i] == issued[|issued| - 1 - i]
  {
    seq(|issued|, i requires 0 <= i < |issued| => issued[|issued| - 1 - i])
  }

  function SpecRequestOutcome(spec: Spec, known: bool, now: int): RequestOutcome {
    if !known then UnknownEmail
    else
      var throttle := ThrottleFor(NewestFirstOf(spec.issued), now);
      if throttle.Some? then Throttled(throttle.value) else Issued
  }

  function SpecRequested(spec: Spec, known: bool, now: int, code: string): Spec {
    if SpecRequestOutcome(spec, known, now) == Issued
    then Spec(Live(code, now + CODE_TTL_MS, 0), spec.issued + [now])
    else spec
  }

  function SpecResetOutcome(slot: Slot, now: int, guess: string, known: bool): ResetOutcome {
    match slot
    case Empty => Rejected(Missing)
    case Spent => Rejected(Consumed)
    case Live(code, expiresAt, misses) =>
      if now >= expiresAt then Rejected(Expired)
      else if misses >= MAX_ATTEMPTS then Rejected(AttemptsExhausted)
      else if guess != code then Mismatch
      else if known then Redeemed else AccountGone
  }

  function SpecReset(spec: Spec, now: int, guess: string, known: bool): Spec {
    match SpecResetOutcome(spec.slot, now, guess, known)
    case Mismatch => spec.(slot := spec.slot.(misses := spec.slot.misses + 1))
    case Redeemed => spec.(slot := Spent)
    case _ => spec
  }

  /** What the rows stand for. */
  function Abstract(rows: seq<Row>): Spec {
    Spec(if rows == [] then Empty
         else
           var last := rows[|rows| - 1];
           if last.consumedAt.Some? then Spent else Live(last.value, last.expiresAt, last.attempts),
         Created(rows))
  }

  // ---------------------------------------------------------------- the invariant of the table

  /** Rows are at least a cooldown apart, no hour holds more than the quota, only the last can be live,
      and no row has been missed more often than allowed. */
  ghost predicate Inv(rows: seq<Row>, clock: int) {
    && Spaced(Created(rows)) && WithinQuota(Created(rows))
    && (forall i :: 0 <= i < |rows| ==> rows[i].createdAt <= clock)
    && (forall i :: 0 <= i < |rows| - 1 ==> rows[i].consumedAt.Some?)
    && (forall i :: 0 <= i < |rows| ==> rows[i].attempts <= MAX_ATTEMPTS)
    && (forall i :: 0 <= i < |rows| ==> rows[i].expiresAt == rows[i].createdAt + CODE_TTL_MS)
  }

  ghost predicate Spaced(issued: seq<int>) {
    forall i, j :: 0 <= i < j < |issued| ==> issued[j] - issued[i] >= RESEND_COOLDOWN_MS
  }

  ghost predicate WithinQuota(issued: seq<int>) {
    forall i, j :: 0 <= i && i + MAX_REQUESTS_PER_WINDOW <= j < |issued| ==> issued[j] - issued[i] >= REQUEST_WINDOW_MS
  }

  /** The query's newest row is the last one inserted, and it is the only candidate. */
  lemma NewestIsLast(rows: seq<Row>, clock: int, pick: Option<nat>)
    requires Inv(rows, clock) && Picks(rows, pick)
    ensures if rows == [] then pick == None else pick == Some(|rows| - 1)
  {
    var xs := Created(rows);
    assert forall i :: 0 <= i < |rows| - 1 ==> xs[|rows| - 1] - xs[i] >= RESEND_COOLDOWN_MS;
  }

  lemma {:induction false} InsertOldest(xs: seq<int>, x: int)
    requires forall y :: y in xs ==> x < y
    ensures InsertNewest(xs, x) == xs + [x]
  {
    if xs != [] {
      assert xs[0] in xs && forall y :: y in xs[1..] ==> y in xs;
      InsertOldest(xs[1..], x);
      assert xs + [x] == [xs[0]] + (xs[1..] + [x]);
    }
  }

  /** Ordering rows that were issued in time order is reversing them. */
  lemma {:induction false} OrderIsReverse(issued: seq<int>)
    requires Spaced(issued)
    ensures OrderNewestFirst(issued) == NewestFirstOf(issued)
  {
    if issued != [] {
      OrderIsReverse(issued[1..]);
      FirstIssuedIsOldest(issued);
      InsertOldest(NewestFirstOf(issued[1..]), issued[0]);
    }
  }

  lemma FirstIssuedIsOldest(issued: seq<int>)
    requires Spaced(issued) && issued != []
    ensures forall y :: y in NewestFirstOf(issued[1..]) ==> issued[0] < y
    ensures NewestFirstOf(issued) == NewestFirstOf(issued[1..]) + [issued[0]]
  {
  }

  lemma SpacedIsNewestFirst(issued: seq<int>)
    requires Spaced(issued)
    ensures NewestFirst(NewestFirstOf(issued))
  {
  }

  /** A request that is not throttled comes a cooldown after the last, and an hour after the fifth last. */
  lemma IssuedMeansSpaced(issued: seq<int>, now: int)
    requires Spaced(issued) && WithinQuota(issued)
    requires ThrottleFor(NewestFirstOf(issued), now).None?
    ensures Spaced(issued + [now]) && WithinQuota(issued + [now])
  {
    if issued != [] {
      assert NewestFirstOf(issued)[0] == issued[|issued| - 1];
    }
    var more := issued + [now];
    forall i, j | 0 <= i && i + MAX_REQUESTS_PER_WINDOW <= j < |more| ensures more[j] - more[i] >= REQUEST_WINDOW_MS {
      if j == |issued| {
        FifthLastIsAnHourOld(issued, now, i);
      }
    }
  }

  lemma FifthLastIsAnHourOld(issued: seq<int>, now: int, i: nat)
    requires Spaced(issued) && i + MAX_REQUESTS_PER_WINDOW <= |issued|
    requires ThrottleFor(NewestFirstOf(issued), now).None?
    ensures now - issued[i] >= REQUEST_WINDOW_MS
  {
    SpacedIsNewestFirst(issued);
    InWindowIsPrefix(NewestFirstOf(issued), now);
    assert NewestFirstOf(issued)[|issued| - 1 - i] == issued[i];
  }

  lemma InWindowSize(issued: seq<int>, now: int)
    requires Spaced(issued) && WithinQuota(issued) && forall t :: t in issued ==> t <= now
    ensures |InWindow(NewestFirstOf(issued), now)| <= MAX_REQUESTS_PER_WINDOW
  {
    var xs, n := NewestFirstOf(issued), |issued|;
    SpacedIsNewestFirst(issued);
    InWindowIsPrefix(xs, now);
    if n > MAX_REQUESTS_PER_WINDOW {
      assert issued[n - 1] - issued[n - 1 - MAX_REQUESTS_PER_WINDOW] >= REQUEST_WINDOW_MS;
      assert issued[n - 1] in issued && xs[MAX_REQUESTS_PER_WINDOW] <= RequestWindowStart(now);
    }
  }

  // ---------------------------------------------------------------- one step

  lemma SameThrottle(rows: seq<Row>, clock: int, now: int)
    requires Inv(rows, clock)
    ensures ThrottleFor(Recent(Created(rows), now), now) == ThrottleFor(NewestFirstOf(Created(rows)), now)
  {
    QueryWindowIsEnough(Created(rows), now);
    OrderIsReverse(Created(rows));
  }

  lemma IssuedRows(rows: seq<Row>, clock: int, now: int, code: string)
    requires Inv(rows, clock) && clock <= now
    requires ThrottleFor(NewestFirstOf(Created(rows)), now).None?
    ensures Inv(Retired(rows, now) + [Fresh(now, code)], now)
    ensures Abstract(Retired(rows, now) + [Fresh(now, code)])
         == Spec(Live(code, now + CODE_TTL_MS, 0), Created(rows) + [now])
  {
    IssuedMeansSpaced(Created(rows), now);
    assert Created(Retired(rows, now) + [Fresh(now, code)]) == Created(rows) + [now];
  }

  lemma LaterClock(rows: seq<Row>, clock: int, now: int)
    requires Inv(rows, clock) && clock <= now
    ensures Inv(rows, now)
  {
  }

  lemma SameRequestOutcome(rows: seq<Row>, clock: int, known: bool, now: int)
    requires Inv(rows, clock)
    ensures RequestOutcomeOf(rows, known, now) == SpecRequestOutcome(Abstract(rows), known, now)
    ensures RequestOutcomeOf(rows, known, now) == Issued ==> ThrottleFor(NewestFirstOf(Created(rows)), now).None?
  {
    SameThrottle(rows, clock, now);
  }

  /** A request does to the rows what it does to the slot. */
  lemma RequestRefines(rows: seq<Row>, clock: int, known: bool, now: int, code: string)
    requires Inv(rows, clock) && clock <= now
    ensures RequestOutcomeOf(rows, known, now) == SpecRequestOutcome(Abstract(rows), known, now)
    ensures Abstract(Requested(rows, known, now, code)) == SpecRequested(Abstract(rows), known, now, code)
    ensures Inv(Requested(rows, known, now, code), now)
  {
    SameRequestOutcome(rows, clock, known, now);
    LaterClock(rows, clock, now);
    if RequestOutcomeOf(rows, known, now) == Issued {
      IssuedRows(rows, clock, now, code);
    }
  }

  /** One row more or less missed, or spent, and nothing else of the table changes. */
  lemma ResetKeepsTable(rows: seq<Row>, clock: int, i: nat, row: Row)
    requires Inv(rows, clock) && i < |rows|
    requires row.createdAt == rows[i].createdAt && row.expiresAt == rows[i].expiresAt && row.attempts <= MAX_ATTEMPTS
    requires rows[i].consumedAt.Some? ==> row.consumedAt.Some?
    ensures Inv(rows[i := row], clock)
    ensures Created(rows[i := row]) == Created(rows)
  {
    assert Created(rows[i := row]) == Created(rows);
  }

  lemma SameResetOutcome(rows: seq<Row>, clock: int, now: int, guess: string, known: bool)
    requires Inv(rows, clock) && rows != []
    ensures ResetOutcomeOf(Some(rows[|rows| - 1]), now, guess, known)
         == SpecResetOutcome(Abstract(rows).slot, now, guess, known)
  {
  }

  /** A reset, whichever row the query picks, does to the rows what it does to the slot. */
  lemma ResetRefines(rows: seq<Row>, clock: int, pick: Option<nat>, now: int, guess: string, known: bool)
    requires Inv(rows, clock) && clock <= now && Picks(rows, pick)
    ensures ResetOutcomeOf(RowAt(rows, pick), now, guess, known) == SpecResetOutcome(Abstract(rows).slot, now, guess, known)
    ensures Abstract(Resetted(rows, pick, now, guess, known)) == SpecReset(Abstract(rows), now, guess, known)
    ensures Inv(Resetted(rows, pick, now, guess, known), now)
  {
    NewestIsLast(rows, clock, pick);
    LaterClock(rows, clock, now);
    if rows != [] {
      var last := rows[|rows| - 1];
      SameResetOutcome(rows, clock, now, guess, known);
      ResetKeepsTable(rows, now, |rows| - 1, ResetRow(last, now, ResetOutcomeOf(Some(last), now, guess, known)));
    }
  }
}
