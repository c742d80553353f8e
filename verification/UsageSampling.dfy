/** Turns two consecutive balance readings into a usage window.
    Instants are milliseconds since the Unix epoch; portal stamps are seconds. */
module UsageSampling {
  import opened Prelude
  import opened Money
  import opened Portal

  const EPSILON: real := 0.01
  const MS_PER_HOUR := 3_600_000

  datatype UsageAnomaly = NegativeDelta | ImplausibleRate | StaleWindow

  datatype Limits = Limits(maxCostPerHour: real, maxWindowHours: real)

  datatype ReadingInstant = ReadingInstant(at: int, estimated: bool)

  /** The instant a balance describes: the portal's stamp unless it is absent or later than the poll. */
  function ResolveReadingInstant(balanceAsOf: Option<int>, polledAt: int): (r: ReadingInstant)
    ensures r.at <= polledAt
    ensures !r.estimated <==> balanceAsOf.Some? && balanceAsOf.value * 1000 <= polledAt
    ensures r.at == polledAt || (balanceAsOf.Some? && r.at == balanceAsOf.value * 1000)
    ensures !r.estimated ==> r.at == balanceAsOf.value * 1000
  {
    match balanceAsOf
    case None => ReadingInstant(polledAt, true)
    case Some(seconds) =>
      if seconds * 1000 > polledAt then ReadingInstant(polledAt, true)
      else ReadingInstant(seconds * 1000, false)
  }

  datatype UsageSample = UsageSample(
    windowStart: int,
    windowEnd: int,
    openingBalance: real,
    closingBalance: real,
    rechargeCredited: real,
    rechargePaid: real,
    consumedCost: real,
    rawDelta: real,
    anomaly: Option<UsageAnomaly>)

  // ---------------------------------------------------------------- recharges in a window

  datatype Totals = Totals(credited: real, paid: real)

  /** A successful recharge dated in the half-open window `(start, end]`. */
  predicate LandsIn(r: Recharge, start: int, end: int) {
    r.rechargeStatus == SUCCESS && start < r.rechargedDate * 1000 <= end
  }

  /** The unrounded ledger: what successful recharges in `(start, end]` credited and cost. */
  function Ledger(rs: seq<Recharge>, start: int, end: int): Totals {
    if rs == [] then Totals(0.0, 0.0)
    else
      var before := Ledger(rs[..|rs| - 1], start, end);
      var r := rs[|rs| - 1];
      if LandsIn(r, start, end)
      then Totals(before.credited + r.usableAmount, before.paid + r.rechargeAmount)
      else before
  }

  function RechargesWithin(rs: seq<Recharge>, start: int, end: int): Totals {
    var t := Ledger(rs, start, end);
    Totals(Round2(t.credited), Round2(t.paid))
  }

  /** The loop with its three `continue`s computes exactly the rounded ledger. */
  method SumRecharges(rs: seq<Recharge>, start: int, end: int) returns (totals: Totals)
    ensures totals == RechargesWithin(rs, start, end)
  {
    var credited, paid := 0.0, 0.0;
    for i := 0 to |rs|
      invariant Totals(credited, paid) == Ledger(rs[..i], start, end)
    {
      var r := rs[i];
      assert rs[..i + 1][..i] == rs[..i];
      if r.rechargeStatus != SUCCESS { continue; }
      if r.rechargedDate * 1000 <= start { continue; }
      if r.rechargedDate * 1000 > end { continue; }
      credited := credited + r.usableAmount;
      paid := paid + r.rechargeAmount;
    }
    assert rs[..|rs|] == rs;
    totals := Totals(Round2(credited), Round2(paid));
  }

  /** Adjacent windows share no recharge and lose none. */
  lemma {:induction false} LedgerSplits(rs: seq<Recharge>, a: int, b: int, c: int)
    requires a <= b <= c
    ensures Ledger(rs, a, c).credited == Ledger(rs, a, b).credited + Ledger(rs, b, c).credited
    ensures Ledger(rs, a, c).paid == Ledger(rs, a, b).paid + Ledger(rs, b, c).paid
  {
    if rs != [] {
      LedgerSplits(rs[..|rs| - 1], a, b, c);
    }
  }

  lemma {:induction false} LedgerOfEmptyWindow(rs: seq<Recharge>, a: int)
    ensures Ledger(rs, a, a) == Totals(0.0, 0.0)
  {
    if rs != [] {
      LedgerOfEmptyWindow(rs[..|rs| - 1], a);
    }
  }

  /** The successful recharges dated no later than `at`, in the order the scrape lists them. */
  function Settled(rs: seq<Recharge>, at: int): (r: seq<Recharge>) {
    if rs == [] then []
    else
      var before := Settled(rs[..|rs| - 1], at);
      var last := rs[|rs| - 1];
      if last.rechargeStatus == SUCCESS && last.rechargedDate * 1000 <= at then before + [last] else before
  }

  /** Two listings hold the same successful recharges up to `at`, in whatever order. */
  ghost predicate AgreeUpTo(rs: seq<Recharge>, ts: seq<Recharge>, at: int) {
    multiset(Settled(rs, at)) == multiset(Settled(ts, at))
  }

  lemma {:induction false} LedgerReadsSettled(rs: seq<Recharge>, a: int, b: int, at: int)
    requires b <= at
    ensures Ledger(Settled(rs, at), a, b) == Ledger(rs, a, b)
  {
    if rs != [] {
      var init, last := rs[..|rs| - 1], rs[|rs| - 1];
      LedgerReadsSettled(init, a, b, at);
      if last.rechargeStatus == SUCCESS && last.rechargedDate * 1000 <= at {
        LedgerOfOneMore(Settled(init, at), last, a, b);
      } else {
        assert !LandsIn(last, a, b);
      }
    }
  }

  lemma LedgerOfOneMore(rs: seq<Recharge>, r: Recharge, a: int, b: int)
    ensures var before := Ledger(rs, a, b);
            Ledger(rs + [r], a, b) == if LandsIn(r, a, b)
              then Totals(before.credited + r.usableAmount, before.paid + r.rechargeAmount) else before
  {
    assert (rs + [r])[..|rs|] == rs;
  }

  lemma {:induction false} LedgerWithout(rs: seq<Recharge>, j: nat, a: int, b: int)
    requires j < |rs|
    ensures var rest := Ledger(rs[..j] + rs[j + 1..], a, b);
            Ledger(rs, a, b) == if LandsIn(rs[j], a, b)
              then Totals(rest.credited + rs[j].usableAmount, rest.paid + rs[j].rechargeAmount) else rest
  {
    var n := |rs| - 1;
    if j == n {
      assert rs[..j] + rs[j + 1..] == rs[..n];
    } else {
      LedgerWithout(rs[..n], j, a, b);
      var rest := rs[..j] + rs[j + 1..];
      assert rest[..|rest| - 1] == rs[..n][..j] + rs[..n][j + 1..];
    }
  }

  lemma {:induction false} LedgerIgnoresOrder(rs: seq<Recharge>, ts: seq<Recharge>, a: int, b: int)
    requires multiset(rs) == multiset(ts)
    ensures Ledger(rs, a, b) == Ledger(ts, a, b)
  {
    if rs == [] {
      assert |multiset(ts)| == 0;
    } else {
      var j := MatchLast(rs, ts);
      var n := |rs| - 1;
      LedgerIgnoresOrder(rs[..n], ts[..j] + ts[j + 1..], a, b);
      LedgerWithout(ts, j, a, b);
    }
  }

  /** A scrape that agrees with a ledger up to `at` yields the ledger's totals for every window ending by then. */
  lemma AgreeingListingsGiveOneLedger(rs: seq<Recharge>, ts: seq<Recharge>, a: int, b: int, at: int)
    requires b <= at && AgreeUpTo(rs, ts, at)
    ensures Ledger(rs, a, b) == Ledger(ts, a, b)
  {
    LedgerReadsSettled(rs, a, b, at);
    LedgerReadsSettled(ts, a, b, at);
    LedgerIgnoresOrder(Settled(rs, at), Settled(ts, at), a, b);
  }

  // ---------------------------------------------------------------- one window

  /** What a meter consumed between two readings, or nothing when the window does not advance. */
  function BuildUsageSample(openingBalance: real, closingBalance: real, windowStart: int, windowEnd: int,
                            recharges: seq<Recharge>, limits: Limits): Option<UsageSample>
  {
    var elapsedMs := windowEnd - windowStart;
    if elapsedMs <= 0 then None
    else
      var windowHours := elapsedMs as real / MS_PER_HOUR as real;
      var sums := RechargesWithin(recharges, windowStart, windowEnd);
      var rawDelta := Round2(openingBalance - closingBalance + sums.credited);
      var base := UsageSample(windowStart, windowEnd, openingBalance, closingBalance,
                              sums.credited, sums.paid, 0.0, rawDelta, None);
      if rawDelta < -EPSILON then
        Some(base.(anomaly := Some(NegativeDelta)))
      else if rawDelta / windowHours > limits.maxCostPerHour then
        Some(base.(anomaly := Some(ImplausibleRate)))
      else
        var consumedCost := if rawDelta > 0.0 then rawDelta else 0.0;
        if windowHours > limits.maxWindowHours then
          Some(base.(consumedCost := consumedCost, anomaly := Some(StaleWindow)))
        else
          Some(base.(consumedCost := consumedCost))
  }

  /** A sample whose cost was zeroed because the arithmetic cannot be consumption. */
  predicate Suppressed(s: UsageSample) {
    s.anomaly == Some(NegativeDelta) || s.anomaly == Some(ImplausibleRate)
  }

  /** What every branch has in common, and the cost each of them sets. */
  lemma SampleShape(opening: real, closing: real, start: int, end: int, rs: seq<Recharge>, limits: Limits)
    requires start < end
    ensures var built := BuildUsageSample(opening, closing, start, end, rs, limits);
            var ledger := Ledger(rs, start, end);
            && built.Some?
            && var s := built.value;
            && s.windowStart == start && s.windowEnd == end
            && s.openingBalance == opening && s.closingBalance == closing
            && s.rechargeCredited == Round2(ledger.credited) && s.rechargePaid == Round2(ledger.paid)
            && s.rawDelta == Round2(opening - closing + Round2(ledger.credited))
            && (if Suppressed(s) then s.consumedCost == 0.0
                else s.rawDelta >= -EPSILON && s.consumedCost == (if s.rawDelta > 0.0 then s.rawDelta else 0.0))
  {
  }

  lemma NothingIsWhole()
    ensures WholePoisha(0.0)
  {
  }

  /** The balance identity of one window, up to the two roundings it goes through:
      what was consumed is what the balance fell by plus what was credited, in poisha, never negative. */
  lemma SampleBalances(opening: real, closing: real, start: int, end: int, rs: seq<Recharge>, limits: Limits)
    requires start < end
    ensures var built := BuildUsageSample(opening, closing, start, end, rs, limits);
            var ledger := Ledger(rs, start, end);
            && built.Some?
            && var s := built.value;
            && s.windowStart == start && s.windowEnd == end
            && s.openingBalance == opening && s.closingBalance == closing
            && Abs(s.rawDelta - (opening - closing + ledger.credited)) <= 0.01
            && Abs(s.rechargeCredited - ledger.credited) <= 0.005
            && Abs(s.rechargePaid - ledger.paid) <= 0.005
            && WholePoisha(s.rawDelta) && WholePoisha(s.consumedCost) && WholePoisha(s.rechargePaid)
            && s.consumedCost >= 0.0
            && (Suppressed(s) ==> s.consumedCost == 0.0)
            && (!Suppressed(s) ==> 0.0 <= s.consumedCost - s.rawDelta <= 0.01)
  {
    var ledger := Ledger(rs, start, end);
    SampleShape(opening, closing, start, end, rs, limits);
    Round2Close(ledger.credited);
    Round2Close(ledger.paid);
    Round2Close(opening - closing + Round2(ledger.credited));
    NothingIsWhole();
  }

  /** With every figure a whole number of poisha nothing is rounded away. */
  lemma SampleBalancesExactly(opening: real, closing: real, start: int, end: int, rs: seq<Recharge>, limits: Limits)
    requires start < end
    requires WholePoisha(opening) && WholePoisha(closing)
    requires forall r :: r in rs ==> WholePoisha(r.usableAmount) && WholePoisha(r.rechargeAmount)
    ensures var s := BuildUsageSample(opening, closing, start, end, rs, limits).value;
            var ledger := Ledger(rs, start, end);
            && s.rawDelta == opening - closing + ledger.credited
            && s.rechargeCredited == ledger.credited
            && s.rechargePaid == ledger.paid
  {
    var ledger := Ledger(rs, start, end);
    LedgerInPoisha(rs, start, end);
    Round2FixedPoints(ledger.credited);
    Round2FixedPoints(ledger.paid);
    WholePoishaDifference(opening, closing);
    WholePoishaSum(opening - closing, ledger.credited);
    Round2FixedPoints(opening - closing + ledger.credited);
  }

  lemma {:induction false} LedgerInPoisha(rs: seq<Recharge>, start: int, end: int)
    requires forall r :: r in rs ==> WholePoisha(r.usableAmount) && WholePoisha(r.rechargeAmount)
    ensures WholePoisha(Ledger(rs, start, end).credited) && WholePoisha(Ledger(rs, start, end).paid)
  {
    if rs != [] {
      var before := Ledger(rs[..|rs| - 1], start, end);
      var r := rs[|rs| - 1];
      LedgerInPoisha(rs[..|rs| - 1], start, end);
      WholePoishaSum(before.credited, r.usableAmount);
      WholePoishaSum(before.paid, r.rechargeAmount);
    }
  }

  /** Exactly when a cost is suppressed, said of money and time without any division:
      the balance rose by more than a poisha, or the spend outruns the hourly ceiling over the window. */
  lemma SuppressedExactly(opening: real, closing: real, start: int, end: int, rs: seq<Recharge>, limits: Limits)
    requires start < end
    ensures var s := BuildUsageSample(opening, closing, start, end, rs, limits).value;
            && (s.anomaly == Some(NegativeDelta) <==> s.rawDelta < -0.01)
            && (s.anomaly == Some(ImplausibleRate) <==>
                  s.rawDelta >= -0.01
                  && s.rawDelta * 3_600_000.0 > limits.maxCostPerHour * (end - start) as real)
            && (s.anomaly == Some(StaleWindow) <==>
                  !Suppressed(s) && (end - start) as real > limits.maxWindowHours * 3_600_000.0)
  {
  }
}
