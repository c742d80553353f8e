/** Requests that overlap: each reads the recent rows and passes the throttle, and commits its code later,
    with any number of other requests' steps in between. */
module RequestInterleaving {
  import opened Prelude
  import opened Overlap
  import opened PasswordResetPolicy
  import opened PasswordReset
  import opened PasswordResetRuns

  /** A request that passed the throttle and has not committed yet; `now` is the instant it read and will write. */
  datatype Flight = Flight(now: int, code: string)

  datatype State = State(rows: seq<Row>, flights: seq<Flight>)

  const START := State([], [])

  datatype Move =
    /** The account lookup and the throttle; a request refused by either ends here. */
    | Begin(now: int, known: bool, code: string)
    /** Retire-then-insert, the one transaction of the request in flight at `index`. */
    | Commit(index: nat)

  predicate Passes(rows: seq<Row>, known: bool, now: int) {
    RequestOutcomeOf(rows, known, now) == Issued
  }

  function Next(s: State, move: Move): State {
    match move
    case Begin(now, known, code) =>
      if Passes(s.rows, known, now) then s.(flights := s.flights + [Flight(now, code)]) else s
    case Commit(i) =>
      if i < |s.flights|
      then State(Retired(s.rows, s.flights[i].now) + [Fresh(s.flights[i].now, s.flights[i].code)], Without(s.flights, i))
      else s
  }

  function Run(moves: seq<Move>): State {
    if moves == [] then START else Next(Run(moves[..|moves| - 1]), moves[|moves| - 1])
  }

  function Open(moves: seq<Move>): nat {
    |Run(moves).flights|
  }

  /** Never more than `k` requests between their throttle and their commit at once. */
  ghost predicate AtMostInFlight(moves: seq<Move>, k: nat) {
    AtMostAtOnce(Open, moves, k)
  }

  function Starts(flights: seq<Flight>): (r: seq<int>)
    ensures |r| == |flights| && forall i :: 0 <= i < |r| ==> r[i] == flights[i].now
  {
    seq(|flights|, i requires 0 <= i < |flights| => flights[i].now)
  }

  // ---------------------------------------------------------------- counting instants

  lemma CountInOneMore(xs: seq<int>, x: int, start: int, end: int)
    ensures CountIn(xs + [x], start, end) == CountIn(xs, start, end) + (if start <= x < end then 1 else 0)
  {
    assert (xs + [x])[..|xs|] == xs;
  }

  lemma {:induction false} CountInOneLess(xs: seq<int>, i: nat, start: int, end: int)
    requires i < |xs|
    ensures CountIn(xs, start, end) == CountIn(Without(xs, i), start, end) + (if start <= xs[i] < end then 1 else 0)
  {
    var n := |xs| - 1;
    if i == n {
      assert Without(xs, i) == xs[..n];
    } else {
      CountInOneLess(xs[..n], i, start, end);
      assert Without(xs, i) == Without(xs[..n], i) + [xs[n]];
      CountInOneMore(Without(xs[..n], i), xs[n], start, end);
    }
  }

  lemma {:induction false} CountInAtMostAll(xs: seq<int>, start: int, end: int)
    ensures CountIn(xs, start, end) <= |xs|
  {
    if xs != [] {
      CountInAtMostAll(xs[..|xs| - 1], start, end);
    }
  }

  lemma {:induction false} InWindowOfLast(xs: seq<int>, x: int, now: int)
    ensures InWindow(xs + [x], now) == InWindow(xs, now) + (if x > RequestWindowStart(now) then [x] else [])
  {
    if xs == [] {
      assert xs + [x] == [x] && [x][1..] == [];
    } else {
      InWindowOfLast(xs[1..], x, now);
      assert (xs + [x])[1..] == xs[1..] + [x];
    }
  }

  /** What an hour holding `now` can count, the query behind the throttle sees. */
  lemma {:induction false} CountIsSeen(xs: seq<int>, start: int, end: int, now: int)
    requires RequestWindowStart(now) < start
    ensures CountIn(xs, start, end) <= |InWindow(xs, now)|
  {
    if xs != [] {
      var n := |xs| - 1;
      CountIsSeen(xs[..n], start, end, now);
      InWindowOfLast(xs[..n], xs[n], now);
      assert xs == xs[..n] + [xs[n]];
    }
  }

  /** A request that passes saw fewer than the quota inside the hour. */
  lemma PassedBelowQuota(rows: seq<Row>, known: bool, now: int)
    requires Passes(rows, known, now)
    ensures |InWindow(Created(rows), now)| < MAX_REQUESTS_PER_WINDOW
  {
    var inHour := InWindow(Created(rows), now);
    QueryWindowIsEnough(Created(rows), now);
    OrderThenFilter(Created(rows), now);
    OrderSorts(inHour);
    assert |multiset(OrderNewestFirst(inHour))| == |multiset(inHour)|;
  }

  // ---------------------------------------------------------------- the bound

  function IssuesIn(s: State, start: int): nat {
    CountIn(Created(s.rows), start, start + REQUEST_WINDOW_MS) + CountIn(Starts(s.flights), start, start + REQUEST_WINDOW_MS)
  }

  lemma BeginKeepsBound(s: State, now: int, known: bool, code: string, start: int, k: nat)
    requires |Next(s, Begin(now, known, code)).flights| <= k
    requires IssuesIn(s, start) <= MAX_REQUESTS_PER_WINDOW - 1 + k
    ensures IssuesIn(Next(s, Begin(now, known, code)), start) <= MAX_REQUESTS_PER_WINDOW - 1 + k
  {
    var end := start + REQUEST_WINDOW_MS;
    if Passes(s.rows, known, now) {
      var flights := s.flights + [Flight(now, code)];
      assert Starts(flights) == Starts(s.flights) + [now];
      CountInOneMore(Starts(s.flights), now, start, end);
      if start <= now < end {
        PassedBelowQuota(s.rows, known, now);
        CountIsSeen(Created(s.rows), start, end, now);
        CountInAtMostAll(Starts(flights), start, end);
      }
    }
  }

  lemma CommitKeepsCount(s: State, i: nat, start: int)
    requires i < |s.flights|
    ensures IssuesIn(Next(s, Commit(i)), start) == IssuesIn(s, start)
  {
    var end, f := start + REQUEST_WINDOW_MS, s.flights[i];
    CreatedByCommit(s.rows, f.now, f.code);
    CountInOneMore(Created(s.rows), f.now, start, end);
    StartsWithout(s.flights, i);
    CountInOneLess(Starts(s.flights), i, start, end);
  }

  lemma CreatedByCommit(rows: seq<Row>, now: int, code: string)
    ensures Created(Retired(rows, now) + [Fresh(now, code)]) == Created(rows) + [now]
  {
  }

  lemma StartsWithout(flights: seq<Flight>, i: nat)
    requires i < |flights|
    ensures Starts(Without(flights, i)) == Without(Starts(flights), i)
  {
  }

  /** With at most `k` requests between throttle and commit, the codes issued in any half-open hour and those still to be
      committed in it exceed the quota by at most `k - 1`. */
  lemma {:induction false} IssuesBounded(moves: seq<Move>, start: int, k: nat)
    requires AtMostInFlight(moves, k)
    ensures IssuesIn(Run(moves), start) <= MAX_REQUESTS_PER_WINDOW - 1 + k
  {
    if moves != [] {
      var n := |moves| - 1;
      AtOnceBefore(Open, moves, k);
      AtOnceNow(Open, moves, k);
      IssuesBounded(moves[..n], start, k);
      match moves[n] {
        case Begin(now, known, code) => BeginKeepsBound(Run(moves[..n]), now, known, code, start, k);
        case Commit(i) =>
          if i < |Run(moves[..n]).flights| {
            CommitKeepsCount(Run(moves[..n]), i, start);
          }
      }
    }
  }

  // ---------------------------------------------------------------- the bound is the least one

  /** Codes issued a minute apart from the start of an hour. */
  function MinuteApart(n: nat): (r: seq<int>)
    ensures |r| == n && forall i :: 0 <= i < n ==> r[i] == i * RESEND_COOLDOWN_MS
  {
    seq(n, i => i * RESEND_COOLDOWN_MS)
  }

  /** `n` codes issued, and `m` requests that began at the next minute in flight. */
  ghost predicate Poised(s: State, n: nat, m: nat) {
    && Created(s.rows) == MinuteApart(n)
    && |s.flights| == m && forall f :: f in s.flights ==> f.now == n * RESEND_COOLDOWN_MS
  }

  lemma PoisedPasses(s: State, n: nat, m: nat)
    requires Poised(s, n, m) && n < MAX_REQUESTS_PER_WINDOW
    ensures Passes(s.rows, true, n * RESEND_COOLDOWN_MS)
  {
    var now, xs := n * RESEND_COOLDOWN_MS, NewestFirstOf(MinuteApart(n));
    QueryWindowIsEnough(MinuteApart(n), now);
    OrderIsReverse(MinuteApart(n));
    SpacedIsNewestFirst(MinuteApart(n));
    InWindowIsPrefix(xs, now);
  }

  lemma {:induction false} BeginMany(moves: seq<Move>, k: nat, n: nat, m: nat, more: nat) returns (longer: seq<Move>)
    requires AtMostInFlight(moves, k) && Poised(Run(moves), n, m)
    requires n < MAX_REQUESTS_PER_WINDOW && m + more <= k
    ensures AtMostInFlight(longer, k) && Poised(Run(longer), n, m + more)
    decreases more
  {
    longer := moves;
    if more > 0 {
      var begin := Begin(n * RESEND_COOLDOWN_MS, true, "a");
      PoisedPasses(Run(moves), n, m);
      AtOnceAfter(Open, moves, begin, k);
      longer := BeginMany(moves + [begin], k, n, m + 1, more - 1);
    }
  }

  lemma CommitTheOnlyOne(s: State, n: nat)
    requires Poised(s, n, 1)
    ensures Poised(Next(s, Commit(0)), n + 1, 0)
  {
    assert s.flights[0] in s.flights;
    CreatedByCommit(s.rows, s.flights[0].now, s.flights[0].code);
  }

  /** Committing what is in flight changes no count and leaves nothing to commit. */
  lemma {:induction false} CommitAll(moves: seq<Move>, k: nat, start: int) returns (longer: seq<Move>)
    requires AtMostInFlight(moves, k)
    ensures AtMostInFlight(longer, k) && Run(longer).flights == []
    ensures IssuesIn(Run(longer), start) == IssuesIn(Run(moves), start)
    decreases |Run(moves).flights|
  {
    longer := moves;
    if Run(moves).flights != [] {
      AtOnceNow(Open, moves, k);
      CommitKeepsCount(Run(moves), 0, start);
      AtOnceAfter(Open, moves, Commit(0), k);
      longer := CommitAll(moves + [Commit(0)], k, start);
    }
  }

  lemma {:induction false} CountInAll(xs: seq<int>, start: int, end: int)
    requires forall i :: 0 <= i < |xs| ==> start <= xs[i] < end
    ensures CountIn(xs, start, end) == |xs|
  {
    if xs != [] {
      CountInAll(xs[..|xs| - 1], start, end);
    }
  }

  lemma PoisedCount(s: State, n: nat, m: nat)
    requires Poised(s, n, m) && n < 60
    ensures IssuesIn(s, 0) == n + m
  {
    CountInAll(Created(s.rows), 0, REQUEST_WINDOW_MS);
    assert forall i :: 0 <= i < m ==> s.flights[i] in s.flights;
    CountInAll(Starts(s.flights), 0, REQUEST_WINDOW_MS);
  }

  /** For every `k` some run with at most `k` in flight issues that many codes in one hour, so no smaller bound holds. */
  lemma BoundIsReached(k: nat) returns (moves: seq<Move>)
    requires k >= 1
    ensures AtMostInFlight(moves, k) && Run(moves).flights == []
    ensures CountIn(Created(Run(moves).rows), 0, REQUEST_WINDOW_MS) == MAX_REQUESTS_PER_WINDOW - 1 + k
  {
    moves := [];
    assert Created(Run(moves).rows) == MinuteApart(0);
    for n := 0 to MAX_REQUESTS_PER_WINDOW - 1
      invariant AtMostInFlight(moves, k) && Poised(Run(moves), n, 0)
    {
      moves := BeginMany(moves, k, n, 0, 1);
      CommitTheOnlyOne(Run(moves), n);
      AtOnceAfter(Open, moves, Commit(0), k);
      moves := moves + [Commit(0)];
    }
    moves := BeginMany(moves, k, MAX_REQUESTS_PER_WINDOW - 1, 0, k);
    PoisedCount(Run(moves), MAX_REQUESTS_PER_WINDOW - 1, k);
    moves := CommitAll(moves, k, 0);
    assert Starts(Run(moves).flights) == [];
  }

  // ---------------------------------------------------------------- which code is left live

  ghost predicate OnlyLastLive(rows: seq<Row>) {
    forall i :: 0 <= i < |rows| - 1 ==> rows[i].consumedAt.Some?
  }

  /** However requests overlap, only the row committed last can be live. */
  lemma {:induction false} OnlyLastCommittedIsLive(moves: seq<Move>)
    ensures OnlyLastLive(Run(moves).rows)
  {
    if moves != [] {
      var n := |moves| - 1;
      OnlyLastCommittedIsLive(moves[..n]);
      CommitRetires(Run(moves[..n]), moves[n]);
    }
  }

  lemma CommitRetires(s: State, move: Move)
    requires OnlyLastLive(s.rows)
    ensures OnlyLastLive(Next(s, move).rows)
  {
    if move.Commit? && move.index < |s.flights| {
      var retired := Retired(s.rows, s.flights[move.index].now);
      assert Next(s, move).rows[..|s.rows|] == retired;
    }
  }

  ghost predicate LastIsLive(rows: seq<Row>) {
    rows != [] ==>
      var last := rows[|rows| - 1];
      last.consumedAt.None? && last.expiresAt == last.createdAt + CODE_TTL_MS && last.attempts == 0
  }

  lemma {:induction false} LastCommittedIsLive(moves: seq<Move>)
    ensures LastIsLive(Run(moves).rows)
  {
    if moves != [] {
      LastCommittedIsLive(moves[..|moves| - 1]);
    }
  }

  lemma SomeRowIsNewest(rows: seq<Row>) returns (k: nat)
    requires rows != []
    ensures Picks(rows, Some(k))
  {
    k := 0;
    for n := 1 to |rows|
      invariant k < n && forall j :: 0 <= j < n ==> rows[j].createdAt <= rows[k].createdAt
    {
      if rows[n].createdAt > rows[k].createdAt { k := n; }
    }
  }

  ghost predicate LastIsNewest(rows: seq<Row>)
    requires rows != []
  {
    forall j :: 0 <= j < |rows| - 1 ==> rows[j].createdAt < rows[|rows| - 1].createdAt
  }

  /** The newest-first query can only return the last row exactly when every other row is strictly older. */
  lemma LastIsPickedExactly(rows: seq<Row>)
    requires rows != []
    ensures (forall pick :: Picks(rows, pick) ==> pick == Some(|rows| - 1)) <==> LastIsNewest(rows)
  {
    var n: nat := |rows| - 1;
    if j: nat :| 0 <= j < n && rows[j].createdAt >= rows[n].createdAt {
      var k := SomeRowIsNewest(rows[..n]);
      assert rows[..n][j] == rows[j] && Picks(rows, Some(k));
    }
  }

  /** Redeeming the code just committed, whichever newest row the query returns: it is found exactly when every other
      row is older, on a tie a row retired before may be returned in its place, and that one, or a newer one, is
      rejected as spent whatever the guess. */
  lemma OvertakenCodeIsDead(s: State, i: nat)
    requires i < |s.flights|
    ensures var f, rows := s.flights[i], Next(s, Commit(i)).rows;
            && ((forall pick :: Picks(rows, pick) ==> pick == Some(|s.rows|))
                <==> (forall j :: 0 <= j < |s.rows| ==> s.rows[j].createdAt < f.now))
            && ((exists j :: 0 <= j < |s.rows| && s.rows[j].createdAt > f.now)
                 ==> forall pick :: Picks(rows, pick) ==> pick != Some(|s.rows|))
            && (forall pick, now, guess, known :: Picks(rows, pick) ==>
                 ResetOutcomeOf(RowAt(rows, pick), now, guess, known)
                   == if pick == Some(|s.rows|)
                      then SpecResetOutcome(Live(f.code, f.now + CODE_TTL_MS, 0), now, guess, known)
                      else Rejected(Consumed))
  {
    var rows := Next(s, Commit(i)).rows;
    assert rows[|s.rows|] == Fresh(s.flights[i].now, s.flights[i].code);
    assert forall j :: 0 <= j < |s.rows| ==> rows[j].createdAt == s.rows[j].createdAt && rows[j].consumedAt.Some?;
    LastIsPickedExactly(rows);
  }

  /** Whatever row a reset finds, it is answered as for the code committed last. */
  ghost predicate LastCodeWorks(rows: seq<Row>)
    requires rows != []
  {
    var last := rows[|rows| - 1];
    forall pick, now, guess, known :: Picks(rows, pick) ==>
      ResetOutcomeOf(RowAt(rows, pick), now, guess, known)
        == SpecResetOutcome(Live(last.value, last.createdAt + CODE_TTL_MS, 0), now, guess, known)
  }

  lemma SpentIsNotLive(rows: seq<Row>, pick: nat)
    requires pick < |rows| && Picks(rows, Some(pick)) && rows[pick].consumedAt.Some?
    ensures !LastCodeWorks(rows)
  {
    assert ResetOutcomeOf(RowAt(rows, Some(pick)), 0, "", true) == Rejected(Consumed);
  }

  lemma OnlyPickWorks(rows: seq<Row>)
    requires rows != [] && LastIsLive(rows) && LastIsNewest(rows)
    ensures LastCodeWorks(rows)
  {
    LastIsPickedExactly(rows);
  }

  lemma OtherPick(rows: seq<Row>)
    requires rows != [] && OnlyLastLive(rows) && !LastIsNewest(rows)
    ensures !LastCodeWorks(rows)
  {
    var n: nat := |rows| - 1;
    LastIsPickedExactly(rows);
    var pick: Option<nat> :| Picks(rows, pick) && pick != Some(n);
    SpentIsNotLive(rows, pick.value);
  }

  /** However requests overlapped, the code issued last works exactly when its request also began last: at a strictly
      later instant than every other. */
  lemma LastCodeWorksExactly(moves: seq<Move>)
    requires Run(moves).rows != []
    ensures LastCodeWorks(Run(moves).rows) <==> LastIsNewest(Run(moves).rows)
  {
    var rows := Run(moves).rows;
    LastCommittedIsLive(moves);
    OnlyLastCommittedIsLive(moves);
    if LastIsNewest(rows) {
      OnlyPickWorks(rows);
    } else {
      OtherPick(rows);
    }
  }

  /** A run in which no code works: two requests overlap, and the one that began first commits last. */
  lemma NoCodeWorks() returns (moves: seq<Move>)
    ensures AtMostInFlight(moves, 2) && |Run(moves).rows| == 2 && Run(moves).flights == []
    ensures Run(moves).rows[1].consumedAt.None? && Run(moves).rows[1].createdAt < Run(moves).rows[0].createdAt
    ensures forall pick, now, guess, known :: Picks(Run(moves).rows, pick) ==>
              ResetOutcomeOf(RowAt(Run(moves).rows, pick), now, guess, known) == Rejected(Consumed)
  {
    moves := TwoBegin();
    var both := Run(moves);
    AtOnceAfter(Open, moves, Commit(1), 2);
    moves := moves + [Commit(1)];
    AtOnceAfter(Open, moves, Commit(0), 2);
    var last := Run(moves);
    OvertakenCodeIsDead(last, 0);
    assert last.rows[0].createdAt == 1;
    moves := moves + [Commit(0)];
  }

  /** Both read an empty table, a millisecond apart. */
  lemma TwoBegin() returns (moves: seq<Move>)
    ensures AtMostInFlight(moves, 2) && Run(moves) == State([], [Flight(0, "a"), Flight(1, "b")])
  {
    var first, second := Begin(0, true, "a"), Begin(1, true, "b");
    NothingThrottlesTheFirst(0);
    NothingThrottlesTheFirst(1);
    moves := [] + [first];
    AtOnceAfter(Open, [], first, 2);
    assert Run(moves) == Next(START, first);
    AtOnceAfter(Open, moves, second, 2);
    assert Run(moves + [second]) == Next(Run(moves), second);
    moves := moves + [second];
  }

  lemma NothingThrottlesTheFirst(now: int)
    ensures Passes([], true, now)
  {
    assert Created([]) == [];
  }
}
