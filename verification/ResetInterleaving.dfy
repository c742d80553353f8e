/** Resets that overlap: each call reads and checks the newest row, verifies its guess, and writes later,
    with any number of other calls' steps in between. */
module ResetInterleaving {
  import opened Prelude
  import opened Overlap
  import opened PasswordResetPolicy
  import opened PasswordReset

  /** A reset that passed the check on a row and has not written yet. `seen` is the attempt count it read. */
  datatype Flight = Flight(row: nat, matches: bool, now: int, seen: nat)

  datatype State = State(rows: seq<Row>, flights: seq<Flight>)

  const START := State([], [])

  datatype Move =
    /** A whole request. */
    | Request(now: int, known: bool, code: string)
    /** The read and the check of a reset; a rejected one ends here. */
    | Begin(now: int, guess: string, pick: Option<nat>)
    /** The write of the reset in flight at `index`; `known` is what the account lookup says by then. */
    | Write(index: nat, known: bool)

  predicate Passes(s: State, move: Move)
    requires move.Begin?
  {
    && (move.pick.Some? ==> move.pick.value < |s.rows|)
    && RejectionFor(RowAt(s.rows, move.pick), move.now).None?
  }

  /** The write of one reset: `attempts = attempts + 1` computed in SQL, or the code consumed. */
  function Written(row: Row, f: Flight, known: bool): Row {
    if !f.matches then row.(attempts := row.attempts + 1)
    else if known then row.(consumedAt := Some(f.now))
    else row
  }

  function Next(s: State, move: Move): State {
    match move
    case Request(now, known, code) => s.(rows := Requested(s.rows, known, now, code))
    case Begin(now, guess, pick) =>
      if Passes(s, move) && pick.Some?
      then
        var row := s.rows[pick.value];
        s.(flights := s.flights + [Flight(pick.value, row.value == guess, now, row.attempts)])
      else s
    case Write(i, known) =>
      if i < |s.flights| && s.flights[i].row < |s.rows|
      then State(s.rows[s.flights[i].row := Written(s.rows[s.flights[i].row], s.flights[i], known)], Without(s.flights, i))
      else s
  }

  function Run(moves: seq<Move>): State {
    if moves == [] then START else Next(Run(moves[..|moves| - 1]), moves[|moves| - 1])
  }

  function Open(moves: seq<Move>): nat {
    |Run(moves).flights|
  }

  /** Never more than `k` resets in flight at once. */
  ghost predicate AtMostInFlight(moves: seq<Move>, k: nat) {
    AtMostAtOnce(Open, moves, k)
  }

  function InFlight(flights: seq<Flight>, row: nat): nat {
    if flights == [] then 0
    else InFlight(flights[..|flights| - 1], row) + (if flights[|flights| - 1].row == row then 1 else 0)
  }

  function Attempts(s: State, row: nat): nat {
    if row < |s.rows| then s.rows[row].attempts else 0
  }

  /** The mismatches written against a row. */
  function MismatchesWritten(moves: seq<Move>, row: nat): nat {
    if moves == [] then 0
    else
      var before, move := Run(moves[..|moves| - 1]), moves[|moves| - 1];
      MismatchesWritten(moves[..|moves| - 1], row)
      + (if move.Write? && move.index < |before.flights| && before.flights[move.index].row == row
            && !before.flights[move.index].matches then 1 else 0)
  }

  /** The write of a guess that matched, for an account that is still there: it signs the caller in. */
  predicate Redeems(s: State, move: Move, row: nat) {
    && move.Write? && move.index < |s.flights|
    && s.flights[move.index].row == row && s.flights[move.index].matches && move.known
  }

  /** How many callers one row's code has signed in. */
  function Redemptions(moves: seq<Move>, row: nat): nat {
    if moves == [] then 0
    else Redemptions(moves[..|moves| - 1], row)
         + (if Redeems(Run(moves[..|moves| - 1]), moves[|moves| - 1], row) then 1 else 0)
  }

  lemma {:induction false} InFlightAtMostAll(flights: seq<Flight>, row: nat)
    ensures InFlight(flights, row) <= |flights|
  {
    if flights != [] {
      InFlightAtMostAll(flights[..|flights| - 1], row);
    }
  }

  lemma InFlightOneMore(flights: seq<Flight>, f: Flight, row: nat)
    ensures InFlight(flights + [f], row) == InFlight(flights, row) + (if f.row == row then 1 else 0)
  {
  }

  lemma {:induction false} InFlightOneLess(flights: seq<Flight>, i: nat, row: nat)
    requires i < |flights|
    ensures InFlight(flights, row) == InFlight(Without(flights, i), row) + (if flights[i].row == row then 1 else 0)
  {
    var n := |flights| - 1;
    if i == n {
      assert Without(flights, i) == flights[..n];
    } else {
      InFlightOneLess(flights[..n], i, row);
      assert Without(flights, i) == Without(flights[..n], i) + [flights[n]];
      InFlightOneMore(Without(flights[..n], i), flights[n], row);
    }
  }

  ghost predicate FlightsKnowTheirRows(s: State) {
    forall f :: f in s.flights ==> f.row < |s.rows|
  }

  lemma {:induction false} RowsStayKnown(moves: seq<Move>)
    ensures FlightsKnowTheirRows(Run(moves))
  {
    if moves != [] {
      RowsStayKnown(moves[..|moves| - 1]);
    }
  }

  /** No increment is lost, however the writes interleave: a row's attempts are the mismatches written against it. */
  lemma {:induction false} NoIncrementIsLost(moves: seq<Move>, row: nat)
    ensures Attempts(Run(moves), row) == MismatchesWritten(moves, row)
  {
    if moves != [] {
      var n := |moves| - 1;
      NoIncrementIsLost(moves[..n], row);
      RowsStayKnown(moves[..n]);
      var before := Run(moves[..n]);
      if moves[n].Write? && moves[n].index < |before.flights| {
        assert before.flights[moves[n].index] in before.flights;
      }
    }
  }

  lemma RequestTouchesNoAttempts(s: State, move: Move, row: nat)
    requires move.Request?
    ensures Attempts(Next(s, move), row) == Attempts(s, row) && Next(s, move).flights == s.flights
  {
  }

  /** A call that passes the check joins those in flight while the row has an attempt left. */
  lemma BeginStep(s: State, move: Move, row: nat, k: nat)
    requires move.Begin? && |Next(s, move).flights| <= k
    requires Attempts(s, row) + InFlight(s.flights, row) <= MAX_ATTEMPTS - 1 + k
    ensures Attempts(Next(s, move), row) + InFlight(Next(s, move).flights, row) <= MAX_ATTEMPTS - 1 + k
  {
    if Passes(s, move) && move.pick.Some? {
      var read := s.rows[move.pick.value];
      var f := Flight(move.pick.value, read.value == move.guess, move.now, read.attempts);
      assert Next(s, move) == s.(flights := s.flights + [f]);
      PassedRowHasAttempts(read, move.now);
      JoinsUnderTheCeiling(s, f, row, k);
    }
  }

  lemma PassedRowHasAttempts(row: Row, now: int)
    requires RejectionFor(Some(row), now).None?
    ensures row.attempts < MAX_ATTEMPTS
  {
  }

  lemma JoinsUnderTheCeiling(s: State, f: Flight, row: nat, k: nat)
    requires |s.flights| < k && Attempts(s, f.row) < MAX_ATTEMPTS
    requires Attempts(s, row) + InFlight(s.flights, row) <= MAX_ATTEMPTS - 1 + k
    ensures Attempts(s, row) + InFlight(s.flights + [f], row) <= MAX_ATTEMPTS - 1 + k
  {
    InFlightOneMore(s.flights, f, row);
    InFlightAtMostAll(s.flights, row);
  }

  /** A write leaves the flight it ends and counts at most one attempt for it. */
  lemma WriteStep(s: State, move: Move, row: nat)
    requires move.Write? && FlightsKnowTheirRows(s)
    ensures Attempts(Next(s, move), row) + InFlight(Next(s, move).flights, row)
         <= Attempts(s, row) + InFlight(s.flights, row)
  {
    if move.index < |s.flights| {
      assert s.flights[move.index] in s.flights;
      InFlightOneLess(s.flights, move.index, row);
    }
  }

  lemma BoundStep(s: State, move: Move, row: nat, k: nat)
    requires FlightsKnowTheirRows(s) && |Next(s, move).flights| <= k
    requires Attempts(s, row) + InFlight(s.flights, row) <= MAX_ATTEMPTS - 1 + k
    ensures Attempts(Next(s, move), row) + InFlight(Next(s, move).flights, row) <= MAX_ATTEMPTS - 1 + k
  {
    match move {
      case Request(now, known, code) => RequestTouchesNoAttempts(s, move, row);
      case Begin(now, guess, pick) => BeginStep(s, move, row, k);
      case Write(index, known) => WriteStep(s, move, row);
    }
  }

  /** With at most `k` resets in flight, a row's attempts plus the resets still to write against it never exceed
      the ceiling by more than `k - 1`. */
  lemma {:induction false} AttemptsBounded(moves: seq<Move>, row: nat, k: nat)
    requires AtMostInFlight(moves, k)
    ensures Attempts(Run(moves), row) + InFlight(Run(moves).flights, row) <= MAX_ATTEMPTS - 1 + k
  {
    if moves != [] {
      var n := |moves| - 1;
      AtOnceBefore(Open, moves, k);
      AtOnceNow(Open, moves, k);
      AttemptsBounded(moves[..n], row, k);
      RowsStayKnown(moves[..n]);
      BoundStep(Run(moves[..n]), moves[n], row, k);
    }
  }

  /** One at a time, the ceiling is the ceiling. */
  lemma OneAtATimeKeepsTheCeiling(moves: seq<Move>, row: nat)
    requires AtMostInFlight(moves, 1)
    ensures Attempts(Run(moves), row) <= 5
  {
    AttemptsBounded(moves, row, 1);
  }

  /** The write there would be if the increment were computed from what the call had read. */
  function WrittenBack(row: Row, f: Flight): Row {
    row.(attempts := f.seen + 1)
  }

  /** Why the increment is computed in SQL: any two mismatches in flight that read the same count both register,
      in either order, where writing back one more than each had read would register one. */
  lemma BothMismatchesCount(s: State, i: nat, j: nat, known: bool)
    requires i < |s.flights| && j < |s.flights| && i != j && FlightsKnowTheirRows(s)
    requires var f, g := s.flights[i], s.flights[j];
             f.row == g.row && f.seen == g.seen == Attempts(s, f.row) && !f.matches && !g.matches
    ensures var f, g := s.flights[i], s.flights[j];
            var k := if i < j then j - 1 else j;
            && Attempts(Next(Next(s, Write(i, known)), Write(k, known)), f.row) == Attempts(s, f.row) + 2
            && WrittenBack(WrittenBack(s.rows[f.row], f), g).attempts == Attempts(s, f.row) + 1
  {
    assert s.flights[i] in s.flights && s.flights[j] in s.flights;
    assert Without(s.flights, i)[if i < j then j - 1 else j] == s.flights[j];
  }

  // ---------------------------------------------------------------- signing in

  /** A row redeemed `r` times is spent, and leaves room for at most `k - r` more of the calls in flight. */
  ghost predicate SpentBy(s: State, row: nat, r: nat, k: nat) {
    r > 0 ==> row < |s.rows| && s.rows[row].consumedAt.Some? && r + InFlight(s.flights, row) <= k
  }

  /** A spent row turns every new call away. */
  lemma BeginKeepsSpent(s: State, move: Move, row: nat, r: nat, k: nat)
    requires move.Begin? && SpentBy(s, row, r, k)
    ensures SpentBy(Next(s, move), row, r, k)
  {
    if r > 0 && Passes(s, move) && move.pick.Some? {
      var read := s.rows[move.pick.value];
      InFlightOneMore(s.flights, Flight(move.pick.value, read.value == move.guess, move.now, read.attempts), row);
    }
  }

  lemma WriteKeepsSpent(s: State, move: Move, row: nat, r: nat, k: nat)
    requires move.Write? && FlightsKnowTheirRows(s) && |s.flights| <= k && SpentBy(s, row, r, k)
    ensures SpentBy(Next(s, move), row, r + (if Redeems(s, move, row) then 1 else 0), k)
  {
    if move.index < |s.flights| {
      assert s.flights[move.index] in s.flights;
      InFlightOneLess(s.flights, move.index, row);
      InFlightAtMostAll(s.flights, row);
    }
  }

  lemma SpentStep(s: State, move: Move, row: nat, r: nat, k: nat)
    requires FlightsKnowTheirRows(s) && |s.flights| <= k && SpentBy(s, row, r, k)
    ensures SpentBy(Next(s, move), row, r + (if Redeems(s, move, row) then 1 else 0), k)
  {
    match move {
      case Request(now, known, code) =>
      case Begin(now, guess, pick) => BeginKeepsSpent(s, move, row, r, k);
      case Write(index, known) => WriteKeepsSpent(s, move, row, r, k);
    }
  }

  /** With at most `k` resets in flight one code signs in at most `k` callers: once it has signed one in it is spent,
      and the others can only be among those still in flight. */
  lemma {:induction false} RedemptionsBounded(moves: seq<Move>, row: nat, k: nat)
    requires AtMostInFlight(moves, k)
    ensures Redemptions(moves, row) <= k
    ensures Redemptions(moves, row) > 0 ==>
              && row < |Run(moves).rows| && Run(moves).rows[row].consumedAt.Some?
              && Redemptions(moves, row) + InFlight(Run(moves).flights, row) <= k
  {
    if moves != [] {
      var n := |moves| - 1;
      AtOnceBefore(Open, moves, k);
      AtOnceNow(Open, moves[..n], k);
      RedemptionsBounded(moves[..n], row, k);
      RowsStayKnown(moves[..n]);
      SpentStep(Run(moves[..n]), moves[n], row, Redemptions(moves[..n], row), k);
    }
  }

  /** A code is spent exactly when a later one was issued or it has signed somebody in. The write does not look. */
  lemma {:induction false} SpentExactly(moves: seq<Move>, row: nat)
    requires row < |Run(moves).rows|
    ensures Run(moves).rows[row].consumedAt.Some? <==> row < |Run(moves).rows| - 1 || Redemptions(moves, row) > 0
  {
    var n := |moves| - 1;
    var before := Run(moves[..n]);
    RowsStayKnown(moves[..n]);
    if row < |before.rows| {
      SpentExactly(moves[..n], row);
    } else {
      NothingToRedeemYet(moves[..n], row);
    }
    if moves[n].Write? && moves[n].index < |before.flights| {
      assert before.flights[moves[n].index] in before.flights;
    }
  }

  lemma {:induction false} NothingToRedeemYet(moves: seq<Move>, row: nat)
    requires row >= |Run(moves).rows|
    ensures Redemptions(moves, row) == 0
  {
    if moves != [] {
      var n := |moves| - 1;
      var before := Run(moves[..n]);
      RowsStayKnown(moves[..n]);
      NothingToRedeemYet(moves[..n], row);
      if moves[n].Write? && moves[n].index < |before.flights| {
        assert before.flights[moves[n].index] in before.flights;
      }
    }
  }

  // ---------------------------------------------------------------- the bounds are the least ones

  /** One row, with `n` guesses in flight against it that all match or all miss. */
  ghost predicate Poised(s: State, row: Row, n: nat, matches: bool) {
    && s.rows == [row]
    && |s.flights| == n
    && forall f :: f in s.flights ==> f.row == 0 && f.matches == matches
  }

  function Missed(attempts: nat): Row {
    Row("a", 0, CODE_TTL_MS, None, attempts)
  }

  lemma BeginJoins(s: State, row: Row, guess: string, n: nat)
    requires Poised(s, row, n, row.value == guess) && RejectionFor(Some(row), 0).None?
    ensures Poised(Next(s, Begin(0, guess, Some(0))), row, n + 1, row.value == guess)
  {
  }

  /** `more` further guesses read the row while it may still be tried. */
  lemma {:induction false} BeginMany(moves: seq<Move>, k: nat, row: Row, guess: string, n: nat, more: nat)
    returns (longer: seq<Move>)
    requires AtMostInFlight(moves, k) && Poised(Run(moves), row, n, row.value == guess)
    requires RejectionFor(Some(row), 0).None? && n + more <= k
    ensures AtMostInFlight(longer, k) && Poised(Run(longer), row, n + more, row.value == guess)
    ensures Redemptions(longer, 0) == Redemptions(moves, 0)
    decreases more
  {
    longer := moves;
    if more > 0 {
      var begin := Begin(0, guess, Some(0));
      AtOnceAfter(Open, moves, begin, k);
      BeginJoins(Run(moves), row, guess, n);
      longer := BeginMany(moves + [begin], k, row, guess, n + 1, more - 1);
    }
  }

  lemma FirstWriteCounts(s: State, attempts: nat, n: nat)
    requires Poised(s, Missed(attempts), n, false) && n > 0
    ensures Poised(Next(s, Write(0, true)), Missed(attempts + 1), n - 1, false)
  {
    assert s.flights[0] in s.flights;
  }

  lemma {:induction false} WriteAll(moves: seq<Move>, k: nat, attempts: nat, n: nat) returns (longer: seq<Move>)
    requires AtMostInFlight(moves, k) && Poised(Run(moves), Missed(attempts), n, false)
    ensures AtMostInFlight(longer, k) && Poised(Run(longer), Missed(attempts + n), 0, false)
    decreases n
  {
    longer := moves;
    if n > 0 {
      FirstWriteCounts(Run(moves), attempts, n);
      AtOnceAfter(Open, moves, Write(0, true), k);
      longer := WriteAll(moves + [Write(0, true)], k, attempts + 1, n - 1);
    }
  }

  lemma FirstRequestIssues()
    ensures Requested([], true, 0, "a") == [Missed(0)]
  {
    assert Created([]) == [];
    assert Retired([], 0) + [Fresh(0, "a")] == [Fresh(0, "a")];
  }

  lemma IssueOne(k: nat) returns (moves: seq<Move>)
    ensures AtMostInFlight(moves, k) && Run(moves) == State([Missed(0)], []) && Redemptions(moves, 0) == 0
  {
    var request := Request(0, true, "a");
    FirstRequestIssues();
    moves := [] + [request];
    AtOnceAfter(Open, [], request, k);
    assert Run(moves) == Next(START, request);
  }

  /** For every `k` some run with at most `k` in flight reaches the bound, so no smaller one holds. */
  lemma BoundIsReached(k: nat) returns (moves: seq<Move>)
    requires k >= 1
    ensures AtMostInFlight(moves, k)
    ensures Attempts(Run(moves), 0) == MAX_ATTEMPTS - 1 + k
  {
    moves := IssueOne(k);
    for i := 0 to MAX_ATTEMPTS - 1
      invariant AtMostInFlight(moves, k) && Poised(Run(moves), Missed(i), 0, false)
    {
      moves := BeginMany(moves, k, Missed(i), "b", 0, 1);
      moves := WriteAll(moves, k, i, 1);
    }
    moves := BeginMany(moves, k, Missed(MAX_ATTEMPTS - 1), "b", 0, k);
    moves := WriteAll(moves, k, MAX_ATTEMPTS - 1, k);
  }

  lemma FirstWriteRedeems(s: State, row: Row, n: nat) returns (spent: Row)
    requires Poised(s, row, n, true) && n > 0
    ensures Redeems(s, Write(0, true), 0) && Poised(Next(s, Write(0, true)), spent, n - 1, true)
  {
    assert s.flights[0] in s.flights;
    spent := row.(consumedAt := Some(s.flights[0].now));
  }

  lemma {:induction false} RedeemAll(moves: seq<Move>, k: nat, row: Row, n: nat) returns (longer: seq<Move>)
    requires AtMostInFlight(moves, k) && Poised(Run(moves), row, n, true)
    ensures AtMostInFlight(longer, k) && Redemptions(longer, 0) == Redemptions(moves, 0) + n
    decreases n
  {
    longer := moves;
    if n > 0 {
      var spent := FirstWriteRedeems(Run(moves), row, n);
      AtOnceAfter(Open, moves, Write(0, true), k);
      longer := RedeemAll(moves + [Write(0, true)], k, spent, n - 1);
    }
  }

  /** For every `k` some run with at most `k` in flight signs in `k` callers with one code. */
  lemma RedemptionsReached(k: nat) returns (moves: seq<Move>)
    ensures AtMostInFlight(moves, k) && Redemptions(moves, 0) == k
  {
    moves := IssueOne(k);
    moves := BeginMany(moves, k, Missed(0), "a", 0, k);
    moves := RedeemAll(moves, k, Missed(0), k);
  }

  /** So a code signs in at most one caller exactly when resets are taken one at a time. */
  lemma SignsInOnceExactly(k: nat)
    ensures (forall moves, row: nat :: AtMostInFlight(moves, k) ==> Redemptions(moves, row) <= 1) <==> k <= 1
  {
    if k <= 1 {
      forall moves, row: nat | AtMostInFlight(moves, k) ensures Redemptions(moves, row) <= 1 {
        RedemptionsBounded(moves, row, k);
      }
    } else {
      var moves := RedemptionsReached(k);
    }
  }

  /** A code that was replaced while its reset was in flight still signs in, and the newer code stays live. */
  lemma ReplacedCodeSignsIn() returns (moves: seq<Move>)
    ensures AtMostInFlight(moves, 1) && Redemptions(moves, 0) == 1
    ensures |Run(moves).rows| == 2 && Run(moves).rows[1].consumedAt.None?
  {
    moves := IssueOne(1);
    moves := BeginMany(moves, 1, Missed(0), "a", 0, 1);
    moves := ReplaceTheCode(moves);
    assert Run(moves).flights[0] in Run(moves).flights;
    AtOnceAfter(Open, moves, Write(0, true), 1);
    moves := moves + [Write(0, true)];
  }

  lemma AMinuteIsEnough(rows: seq<Row>)
    requires rows == [Missed(0)]
    ensures RequestOutcomeOf(rows, true, RESEND_COOLDOWN_MS) == Issued
  {
    var issued := Created(rows);
    QueryWindowIsEnough(issued, RESEND_COOLDOWN_MS);
    OrderIsReverse(issued);
    SpacedIsNewestFirst(issued);
    InWindowIsPrefix(NewestFirstOf(issued), RESEND_COOLDOWN_MS);
  }

  lemma ReplaceTheCode(moves: seq<Move>) returns (longer: seq<Move>)
    requires AtMostInFlight(moves, 1) && Run(moves).rows == [Missed(0)]
    ensures AtMostInFlight(longer, 1) && Redemptions(longer, 0) == Redemptions(moves, 0)
    ensures Run(longer).flights == Run(moves).flights
    ensures |Run(longer).rows| == 2 && Run(longer).rows[1].consumedAt.None?
  {
    var rows, request := Run(moves).rows, Request(RESEND_COOLDOWN_MS, true, "b");
    AMinuteIsEnough(rows);
    AtOnceAfter(Open, moves, request, 1);
    AtOnceNow(Open, moves, 1);
    longer := moves + [request];
  }
}
