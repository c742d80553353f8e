/** Every rule governing a reset code, as functions of plain data. Instants are milliseconds since the Unix epoch. */
module PasswordResetPolicy {
  import opened Prelude

  const CODE_TTL_MS := 15 * 60_000
  const MAX_ATTEMPTS := 5
  const RESEND_COOLDOWN_MS := 60_000
  const MAX_REQUESTS_PER_WINDOW := 5
  const REQUEST_WINDOW_MS := 60 * 60_000

  /** A row of the verification table. Comparing a guess with `value` stands for verifying it against the hash. */
  datatype Row = Row(value: string, createdAt: int, expiresAt: int, consumedAt: Option<int>, attempts: nat)

  datatype Rejection = Missing | Expired | Consumed | AttemptsExhausted

  datatype ThrottleReason = Cooldown | Quota

  datatype Throttle = Throttle(reason: ThrottleReason, retryAfterSeconds: int)

  function CodeExpiryFrom(now: int): int {
    now + CODE_TTL_MS
  }

  function RequestWindowStart(now: int): int {
    now - REQUEST_WINDOW_MS
  }

  function RejectionFor(row: Option<Row>, now: int): Option<Rejection> {
    if row.None? then Some(Missing)
    else if row.value.consumedAt.Some? then Some(Consumed)
    else if row.value.expiresAt <= now then Some(Expired)
    else if row.value.attempts >= MAX_ATTEMPTS then Some(AttemptsExhausted)
    else None
  }

  /** Whole seconds, rounded up, never less than one. */
  function SecondsUntil(ms: int): int {
    Max(1, -((-ms) / 1000))
  }

  /** The creation instants inside the rate-limit window ending at `now`, in the order given. */
  function InWindow(recent: seq<int>, now: int): (r: seq<int>)
    ensures forall t :: t in r ==> t in recent && t > RequestWindowStart(now)
  {
    if recent == [] then []
    else (if recent[0] > RequestWindowStart(now) then [recent[0]] else []) + InWindow(recent[1..], now)
  }

  /** The quota rule. A full window has room again an hour after its oldest request. */
  function QuotaFor(inWindow: seq<int>, now: int): Option<Throttle> {
    if |inWindow| >= MAX_REQUESTS_PER_WINDOW
    then Some(Throttle(Quota, SecondsUntil(inWindow[|inWindow| - 1] + REQUEST_WINDOW_MS - now)))
    else None
  }

  /** Whether another code may be sent, given the creation instants of earlier ones, newest first. */
  function ThrottleFor(recent: seq<int>, now: int): Option<Throttle> {
    if recent != [] && now - recent[0] < RESEND_COOLDOWN_MS
    then Some(Throttle(Cooldown, SecondsUntil(RESEND_COOLDOWN_MS - (now - recent[0]))))
    else QuotaFor(InWindow(recent, now), now)
  }

  // ---------------------------------------------------------------- the query behind the throttle

  ghost predicate NewestFirst(xs: seq<int>) {
    forall i, j :: 0 <= i < j < |xs| ==> xs[i] >= xs[j]
  }

  function InsertNewest(sorted: seq<int>, x: int): seq<int> {
    if sorted == [] then [x]
    else if x >= sorted[0] then [x] + sorted
    else [sorted[0]] + InsertNewest(sorted[1..], x)
  }

  /** `ORDER BY created_at DESC`. */
  function OrderNewestFirst(xs: seq<int>): seq<int> {
    if xs == [] then [] else InsertNewest(OrderNewestFirst(xs[1..]), xs[0])
  }

  /** The rows the throttle reads: those created inside the hour, newest first. */
  function Recent(created: seq<int>, now: int): seq<int> {
    OrderNewestFirst(InWindow(created, now))
  }

  lemma {:induction false} InsertNewestAdds(sorted: seq<int>, x: int)
    ensures multiset(InsertNewest(sorted, x)) == multiset(sorted) + multiset{x}
    ensures forall y :: y in InsertNewest(sorted, x) ==> y == x || y in sorted
  {
    if sorted != [] {
      assert sorted == [sorted[0]] + sorted[1..];
      InsertNewestAdds(sorted[1..], x);
    }
  }

  lemma {:induction false} InsertNewestSorts(sorted: seq<int>, x: int)
    requires NewestFirst(sorted)
    ensures NewestFirst(InsertNewest(sorted, x))
  {
    if sorted != [] && x < sorted[0] {
      var rest := InsertNewest(sorted[1..], x);
      InsertNewestSorts(sorted[1..], x);
      InsertNewestAdds(sorted[1..], x);
      forall i | 0 <= i < |rest| ensures rest[i] <= sorted[0] {
        assert rest[i] in rest;
      }
    }
  }

  lemma {:induction false} OrderSorts(xs: seq<int>)
    ensures NewestFirst(OrderNewestFirst(xs)) && multiset(OrderNewestFirst(xs)) == multiset(xs)
  {
    if xs != [] {
      assert xs == [xs[0]] + xs[1..];
      OrderSorts(xs[1..]);
      InsertNewestSorts(OrderNewestFirst(xs[1..]), xs[0]);
      InsertNewestAdds(OrderNewestFirst(xs[1..]), xs[0]);
    }
  }

  lemma InWindowOfOneMore(x: int, xs: seq<int>, now: int)
    ensures InWindow([x] + xs, now) == (if x > RequestWindowStart(now) then [x] else []) + InWindow(xs, now)
  {
  }

  lemma {:induction false} InWindowOfInsert(sorted: seq<int>, x: int, now: int)
    requires NewestFirst(sorted)
    ensures InWindow(InsertNewest(sorted, x), now)
         == if x > RequestWindowStart(now) then InsertNewest(InWindow(sorted, now), x) else InWindow(sorted, now)
  {
    var kept := InWindow(sorted, now);
    if sorted == [] || x >= sorted[0] {
      InWindowOfOneMore(x, sorted, now);
      InWindowHead(sorted, now);
      assert kept != [] ==> kept[0] in kept;
      assert InsertNewest(sorted, x) == [x] + sorted && InsertNewest(kept, x) == [x] + kept;
      assert [] + kept == kept;
    } else {
      InWindowOfInsert(sorted[1..], x, now);
      InWindowOfOneMore(sorted[0], InsertNewest(sorted[1..], x), now);
      var rest := InWindow(sorted[1..], now);
      assert InsertNewest(sorted, x) == [sorted[0]] + InsertNewest(sorted[1..], x);
      if sorted[0] > RequestWindowStart(now) {
        assert kept == [sorted[0]] + rest && kept[1..] == rest;
      } else {
        assert kept == [] + rest == rest && [] + InWindow(InsertNewest(sorted[1..], x), now) == rest;
      }
    }
  }

  lemma InWindowHead(sorted: seq<int>, now: int)
    requires NewestFirst(sorted)
    ensures forall y :: y in InWindow(sorted, now) ==> sorted != [] && y <= sorted[0]
  {
  }

  lemma {:induction false} OrderThenFilter(created: seq<int>, now: int)
    ensures InWindow(OrderNewestFirst(created), now) == Recent(created, now)
  {
    if created != [] {
      OrderThenFilter(created[1..], now);
      OrderSorts(created[1..]);
      InWindowOfInsert(OrderNewestFirst(created[1..]), created[0], now);
      var rest := InWindow(created[1..], now);
      assert ([created[0]] + rest)[1..] == rest && [] + rest == rest;
    }
  }

  lemma {:induction false} InWindowIsPrefix(sorted: seq<int>, now: int)
    requires NewestFirst(sorted)
    ensures InWindow(sorted, now) <= sorted
    ensures forall i :: 0 <= i < |sorted| ==> (sorted[i] > RequestWindowStart(now) <==> i < |InWindow(sorted, now)|)
  {
    if sorted != [] {
      InWindowIsPrefix(sorted[1..], now);
      if sorted[0] <= RequestWindowStart(now) {
        forall x | x in sorted[1..] ensures x <= RequestWindowStart(now) {
          var i :| 0 <= i < |sorted[1..]| && sorted[1..][i] == x;
          assert sorted[i + 1] == x;
        }
        NothingInWindow(sorted[1..], now);
      }
    }
  }

  lemma {:induction false} NothingInWindow(xs: seq<int>, now: int)
    requires forall x :: x in xs ==> x <= RequestWindowStart(now)
    ensures InWindow(xs, now) == []
  {
    if xs != [] {
      assert xs[0] in xs && forall x :: x in xs[1..] ==> x in xs;
      NothingInWindow(xs[1..], now);
    }
  }

  lemma {:induction false} AllInWindow(xs: seq<int>, now: int)
    requires forall x :: x in xs ==> x > RequestWindowStart(now)
    ensures InWindow(xs, now) == xs
  {
    if xs != [] {
      assert xs[0] in xs && forall x :: x in xs[1..] ==> x in xs;
      AllInWindow(xs[1..], now);
    }
  }

  lemma ThrottleReadsOnlyTheWindow(sorted: seq<int>, now: int)
    requires NewestFirst(sorted)
    ensures ThrottleFor(InWindow(sorted, now), now) == ThrottleFor(sorted, now)
  {
    var recent := InWindow(sorted, now);
    InWindowIsPrefix(sorted, now);
    AllInWindow(recent, now);
    if recent != [] {
      assert recent[0] == sorted[0];
    }
  }

  /** Asking the table only for rows inside the hour decides exactly as asking for all of them. */
  lemma QueryWindowIsEnough(created: seq<int>, now: int)
    ensures ThrottleFor(Recent(created, now), now) == ThrottleFor(OrderNewestFirst(created), now)
  {
    OrderSorts(created);
    OrderThenFilter(created, now);
    ThrottleReadsOnlyTheWindow(OrderNewestFirst(created), now);
  }

  // ---------------------------------------------------------------- retry advice

  lemma SecondsUntilRoundsUp(ms: int)
    requires ms > 0
    ensures SecondsUntil(ms) * 1000 >= ms > (SecondsUntil(ms) - 1) * 1000
  {
  }

  /** What was told, against what holds `wait` whole seconds later. */
  ghost predicate AdviceIsExact(told: Throttle, later: Option<Throttle>, wait: nat) {
    && told.retryAfterSeconds >= 1
    && (wait < told.retryAfterSeconds ==> later.Some? && later.value.reason == told.reason)
    && (wait >= told.retryAfterSeconds ==> later.None? || later.value.reason != told.reason)
    && (wait >= told.retryAfterSeconds && told.reason == Quota ==> later.None?)
  }

  /** The advice given to a throttled caller is sound and least. With at most a quota of requests in the window and no
      new one made, waiting that long clears the reason reported, after a quota wait nothing throttles at all, and any
      smaller whole number of seconds leaves the same reason standing. */
  lemma RetryAdviceIsExact(recent: seq<int>, now: int, wait: nat)
    requires NewestFirst(recent) && ThrottleFor(recent, now).Some?
    requires |InWindow(recent, now)| <= MAX_REQUESTS_PER_WINDOW
    ensures AdviceIsExact(ThrottleFor(recent, now).value, ThrottleFor(recent, now + wait * 1000), wait)
  {
    InWindowIsPrefix(recent, now);
    if now - recent[0] < RESEND_COOLDOWN_MS {
      SecondsUntilRoundsUp(RESEND_COOLDOWN_MS - (now - recent[0]));
    } else {
      var n := |InWindow(recent, now)|;
      assert InWindow(recent, now)[n - 1] == recent[n - 1];
      SecondsUntilRoundsUp(recent[n - 1] + REQUEST_WINDOW_MS - now);
      QuotaStandsWhileOldestStays(recent, now, now + wait * 1000);
    }
  }

  /** A full quota stands for as long as its oldest request stays in the window. */
  lemma QuotaStandsWhileOldestStays(recent: seq<int>, now: int, later: int)
    requires NewestFirst(recent) && now <= later
    requires |InWindow(recent, now)| == MAX_REQUESTS_PER_WINDOW
    ensures |recent| >= MAX_REQUESTS_PER_WINDOW
    ensures recent[MAX_REQUESTS_PER_WINDOW - 1] > RequestWindowStart(now)
    ensures |InWindow(recent, later)| >= MAX_REQUESTS_PER_WINDOW
        <==> recent[MAX_REQUESTS_PER_WINDOW - 1] > RequestWindowStart(later)
  {
    InWindowIsPrefix(recent, now);
    InWindowIsPrefix(recent, later);
  }
}
