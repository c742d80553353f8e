/** Decides whether the last completed day is worth a notice, against the meter's own trailing baseline. */
module UsageAnomaly {
  import opened Prelude
  import opened Money
  import opened AlertEvaluation

  const ANOMALY_BASELINE_DAYS := 14
  const ANOMALY_MIN_BASELINE_DAYS := 7
  const ANOMALY_MIN_BASELINE_COST: real := 15.0

  /** A completed Dhaka day, counted from 1970-01-01, and what it cost. */
  datatype DailyCost = DailyCost(day: int, consumedCost: real)

  datatype AnomalyFinding = AnomalyFinding(day: int, cost: real, baseline: real, percentAbove: int)

  datatype Reason = Disabled | InsufficientHistory | BaselineTooSmall | WithinThreshold | AlreadyReported

  datatype Outcome = Anomaly(finding: AnomalyFinding) | Quiet(reason: Reason)

  // ---------------------------------------------------------------- sorting by day

  /** Places an entry after every entry of an earlier or equal day, as a stable sort does. */
  function Insert(sorted: seq<DailyCost>, entry: DailyCost): seq<DailyCost> {
    if sorted == [] then [entry]
    else
      var n := |sorted| - 1;
      if sorted[n].day <= entry.day then sorted + [entry] else Insert(sorted[..n], entry) + [sorted[n]]
  }

  function SortByDay(days: seq<DailyCost>): seq<DailyCost> {
    if days == [] then [] else Insert(SortByDay(days[..|days| - 1]), days[|days| - 1])
  }

  ghost predicate Ordered(days: seq<DailyCost>) {
    forall i, j :: 0 <= i < j < |days| ==> days[i].day <= days[j].day
  }

  ghost predicate NoDayTwice(days: seq<DailyCost>) {
    forall i, j :: 0 <= i < j < |days| ==> days[i].day != days[j].day
  }

  lemma {:induction false} InsertAdds(sorted: seq<DailyCost>, entry: DailyCost)
    ensures multiset(Insert(sorted, entry)) == multiset(sorted) + multiset{entry}
  {
    if sorted != [] {
      var n := |sorted| - 1;
      assert sorted == sorted[..n] + [sorted[n]];
      InsertAdds(sorted[..n], entry);
    }
  }

  lemma {:induction false} InsertKeepsOrder(sorted: seq<DailyCost>, entry: DailyCost)
    requires Ordered(sorted)
    ensures Ordered(Insert(sorted, entry))
    ensures forall e :: e in Insert(sorted, entry) ==> e == entry || e in sorted
  {
    if sorted != [] {
      var n := |sorted| - 1;
      if sorted[n].day > entry.day {
        InsertKeepsOrder(sorted[..n], entry);
        var front := Insert(sorted[..n], entry);
        forall i | 0 <= i < |front| ensures front[i].day <= sorted[n].day {
          assert front[i] in front;
        }
      }
    }
  }

  lemma {:induction false} SortSorts(days: seq<DailyCost>)
    ensures Ordered(SortByDay(days)) && multiset(SortByDay(days)) == multiset(days)
  {
    if days != [] {
      var n := |days| - 1;
      assert days == days[..n] + [days[n]];
      SortSorts(days[..n]);
      InsertKeepsOrder(SortByDay(days[..n]), days[n]);
      InsertAdds(SortByDay(days[..n]), days[n]);
    }
  }

  // ---------------------------------------------------------------- the decision

  function CostSum(days: seq<DailyCost>): real {
    if days == [] then 0.0 else CostSum(days[..|days| - 1]) + days[|days| - 1].consumedCost
  }

  /** `ordered.slice(-1 - ANOMALY_BASELINE_DAYS, -1)`. */
  function BaselineDays(ordered: seq<DailyCost>): seq<DailyCost>
    requires ordered != []
  {
    ordered[Max(0, |ordered| - 1 - ANOMALY_BASELINE_DAYS)..|ordered| - 1]
  }

  function Baseline(days: seq<DailyCost>): real
    requires days != []
  {
    CostSum(days) / |days| as real
  }

  function EvaluateOrdered(ordered: seq<DailyCost>, settings: Settings, lastReportedDay: Option<int>): Outcome {
    if ordered == [] then Quiet(InsufficientHistory)
    else
      var subject := ordered[|ordered| - 1];
      if lastReportedDay.Some? && subject.day <= lastReportedDay.value then Quiet(AlreadyReported)
      else
        var baselineDays := BaselineDays(ordered);
        if |baselineDays| < ANOMALY_MIN_BASELINE_DAYS then Quiet(InsufficientHistory)
        else
          var baseline := Baseline(baselineDays);
          if baseline < ANOMALY_MIN_BASELINE_COST then Quiet(BaselineTooSmall)
          else
            var percentAbove := RoundHalfUp((subject.consumedCost / baseline - 1.0) * 100.0);
            if percentAbove < settings.usageAnomalyThreshold then Quiet(WithinThreshold)
            else Anomaly(AnomalyFinding(subject.day, Round2(subject.consumedCost), Round2(baseline), percentAbove))
  }

  function EvaluateUsageAnomaly(days: seq<DailyCost>, settings: Settings, lastReportedDay: Option<int>): Outcome {
    if !settings.pushEnabled || !settings.usageAnomalyAlerts then Quiet(Disabled)
    else EvaluateOrdered(SortByDay(days), settings, lastReportedDay)
  }

  // ---------------------------------------------------------------- order does not matter

  lemma LastsAgree(a: seq<DailyCost>, b: seq<DailyCost>)
    requires multiset(a) == multiset(b) && a != [] && b != []
    requires Ordered(a) && Ordered(b) && NoDayTwice(a)
    ensures a[|a| - 1] == b[|b| - 1]
  {
    var x, y := a[|a| - 1], b[|b| - 1];
    assert x in multiset(b) && y in multiset(a);
    var i :| 0 <= i < |b| && b[i] == x;
    var j :| 0 <= j < |a| && a[j] == y;
    assert x.day <= y.day <= x.day;
  }

  lemma {:induction false} SortedListingIsUnique(a: seq<DailyCost>, b: seq<DailyCost>)
    requires multiset(a) == multiset(b)
    requires Ordered(a) && Ordered(b) && NoDayTwice(a)
    ensures a == b
  {
    assert |multiset(a)| == |a| && |multiset(b)| == |b|;
    if a != [] {
      var n := |a| - 1;
      LastsAgree(a, b);
      assert a == a[..n] + [a[n]] && b == b[..n] + [b[n]];
      MultisetCancel(multiset(a[..n]), multiset(b[..n]), a[n]);
      SortedListingIsUnique(a[..n], b[..n]);
    }
  }

  lemma DistinctInAnyOrder(a: seq<DailyCost>, b: seq<DailyCost>)
    requires multiset(a) == multiset(b) && NoDayTwice(a)
    ensures NoDayTwice(b)
  {
    forall i, j | 0 <= i < j < |b| ensures b[i].day != b[j].day {
      if b[i].day == b[j].day {
        assert b[i] in multiset(a) && b[j] in multiset(a);
        var p :| 0 <= p < |a| && a[p] == b[i];
        var q :| 0 <= q < |a| && a[q] == b[j];
        assert p == q;
        TwoOccurrences(b, i, j);
        OneOccurrence(a, p);
        assert false;
      }
    }
  }

  lemma TwoOccurrences(b: seq<DailyCost>, i: nat, j: nat)
    requires i < j < |b| && b[i] == b[j]
    ensures multiset(b)[b[i]] >= 2
  {
    assert b == b[..j] + [b[j]] + b[j + 1..];
    assert b[i] in b[..j];
  }

  lemma OneOccurrence(a: seq<DailyCost>, p: nat)
    requires p < |a| && NoDayTwice(a)
    ensures multiset(a)[a[p]] == 1
  {
    assert a == a[..p] + [a[p]] + a[p + 1..];
    assert a[p] !in a[..p] && a[p] !in a[p + 1..];
  }

  /** The series is read the same way in whatever order its distinct days arrive. */
  lemma OrderDoesNotMatter(a: seq<DailyCost>, b: seq<DailyCost>, settings: Settings, last: Option<int>)
    requires multiset(a) == multiset(b) && NoDayTwice(a)
    ensures EvaluateUsageAnomaly(a, settings, last) == EvaluateUsageAnomaly(b, settings, last)
  {
    SortSorts(a);
    SortSorts(b);
    DistinctInAnyOrder(a, SortByDay(a));
    SortedListingIsUnique(SortByDay(a), SortByDay(b));
  }

  // ---------------------------------------------------------------- where the line is

  lemma RoundedAtLeast(x: real, n: int)
    ensures RoundHalfUp(x) >= n <==> x + 0.5 >= n as real
  {
  }

  lemma RatioAtLeast(cost: real, baseline: real, y: real)
    requires baseline > 0.0
    ensures (cost / baseline - 1.0) * 100.0 >= y <==> cost * 100.0 >= baseline * (y + 100.0)
  {
    var ratio := cost / baseline;
    assert cost == ratio * baseline;
    var margin := ratio * 100.0 - 100.0 - y;
    assert cost * 100.0 - baseline * (y + 100.0) == baseline * margin;
    if margin >= 0.0 { assert baseline * margin >= 0.0; }
    if margin < 0.0 { assert baseline * (-margin) > 0.0; }
  }

  /** The last day costs at least the baseline plus the threshold less half a percent, and may be announced. */
  ghost predicate StandsOut(ordered: seq<DailyCost>, threshold: int, last: Option<int>) {
    && |ordered| >= 1 + ANOMALY_MIN_BASELINE_DAYS
    && var subject, baseline := ordered[|ordered| - 1], Baseline(BaselineDays(ordered));
    && (last.None? || last.value < subject.day)
    && baseline >= ANOMALY_MIN_BASELINE_COST
    && subject.consumedCost * 100.0 >= baseline * (threshold as real + 99.5)
  }

  lemma OrderedFiresExactly(ordered: seq<DailyCost>, settings: Settings, last: Option<int>)
    ensures EvaluateOrdered(ordered, settings, last).Anomaly? <==> StandsOut(ordered, settings.usageAnomalyThreshold, last)
  {
    if |ordered| >= 1 + ANOMALY_MIN_BASELINE_DAYS {
      var subject, baseline := ordered[|ordered| - 1], Baseline(BaselineDays(ordered));
      if baseline >= ANOMALY_MIN_BASELINE_COST {
        RoundedAtLeast((subject.consumedCost / baseline - 1.0) * 100.0, settings.usageAnomalyThreshold);
        RatioAtLeast(subject.consumedCost, baseline, settings.usageAnomalyThreshold as real - 0.5);
      }
    }
  }

  /** The last day and its cost, and the mean of the up to fourteen days before it, to the nearest poisha; how far above,
      to the nearest percent. */
  ghost predicate Accurate(finding: AnomalyFinding, ordered: seq<DailyCost>)
    requires ordered != []
  {
    && BaselineDays(ordered) != []
    && BaselineDays(ordered) + [ordered[|ordered| - 1]] == ordered[|ordered| - Min(15, |ordered|)..]
    && var subject, baseline := ordered[|ordered| - 1], Baseline(BaselineDays(ordered));
    && finding.day == subject.day
    && Abs(finding.cost - subject.consumedCost) <= 0.005
    && Abs(finding.baseline - baseline) <= 0.005
    && baseline * (finding.percentAbove as real - 0.5) <= (subject.consumedCost - baseline) * 100.0
         < baseline * (finding.percentAbove as real + 0.5)
  }

  lemma OrderedFindingIsAccurate(ordered: seq<DailyCost>, settings: Settings, last: Option<int>)
    requires EvaluateOrdered(ordered, settings, last).Anomaly?
    ensures ordered != [] && Accurate(EvaluateOrdered(ordered, settings, last).finding, ordered)
    ensures EvaluateOrdered(ordered, settings, last).finding.percentAbove >= settings.usageAnomalyThreshold
  {
    var subject, baseline := ordered[|ordered| - 1], Baseline(BaselineDays(ordered));
    var n := EvaluateOrdered(ordered, settings, last).finding.percentAbove;
    Round2Close(subject.consumedCost);
    Round2Close(baseline);
    RoundedAtLeast((subject.consumedCost / baseline - 1.0) * 100.0, n);
    RoundedAtLeast((subject.consumedCost / baseline - 1.0) * 100.0, n + 1);
    RatioAtLeast(subject.consumedCost, baseline, n as real - 0.5);
    RatioAtLeast(subject.consumedCost, baseline, n as real + 0.5);
  }

  /** Exactly when a notice goes out, in whatever order the days are listed and said without a ratio or a rounding. */
  lemma FiresExactly(days: seq<DailyCost>, settings: Settings, last: Option<int>)
    ensures EvaluateUsageAnomaly(days, settings, last).Anomaly? <==>
              && settings.pushEnabled && settings.usageAnomalyAlerts
              && StandsOut(SortByDay(days), settings.usageAnomalyThreshold, last)
  {
    OrderedFiresExactly(SortByDay(days), settings, last);
  }

  /** What a notice says is right of the days listed, put in order: they are all there, and the latest is the subject. */
  lemma FindingIsAccurate(days: seq<DailyCost>, settings: Settings, last: Option<int>)
    requires EvaluateUsageAnomaly(days, settings, last).Anomaly?
    ensures var finding, ordered := EvaluateUsageAnomaly(days, settings, last).finding, SortByDay(days);
            && ordered != [] && Ordered(ordered) && multiset(ordered) == multiset(days)
            && Accurate(finding, ordered)
            && finding.percentAbove >= settings.usageAnomalyThreshold
  {
    SortSorts(days);
    OrderedFindingIsAccurate(SortByDay(days), settings, last);
  }

  /** A notice about a last day that cost no more than its own baseline. */
  ghost predicate FiresOnADrop(days: seq<DailyCost>, settings: Settings, last: Option<int>) {
    var ordered := SortByDay(days);
    && |ordered| >= 1 + ANOMALY_MIN_BASELINE_DAYS
    && EvaluateUsageAnomaly(days, settings, last).Anomaly?
    && ordered[|ordered| - 1].consumedCost <= Baseline(BaselineDays(ordered))
  }

  /** Spending less is never announced exactly when notices are switched off or the threshold is at least one percent;
      the settings form admits 10 to 500. */
  lemma NeverOnADropExactly(settings: Settings)
    ensures !settings.pushEnabled || !settings.usageAnomalyAlerts || settings.usageAnomalyThreshold >= 1
        <==> forall days, last :: !FiresOnADrop(days, settings, last)
  {
    if !settings.pushEnabled || !settings.usageAnomalyAlerts || settings.usageAnomalyThreshold >= 1 {
      forall days, last ensures !FiresOnADrop(days, settings, last) {
        NeverOnADrop(days, settings, last);
      }
    } else {
      var days := FiresOnASmallDrop(settings);
    }
  }

  lemma NeverOnADrop(days: seq<DailyCost>, settings: Settings, last: Option<int>)
    requires !settings.pushEnabled || !settings.usageAnomalyAlerts || settings.usageAnomalyThreshold >= 1
    ensures !FiresOnADrop(days, settings, last)
  {
    FiresExactly(days, settings, last);
    if StandsOut(SortByDay(days), settings.usageAnomalyThreshold, last) && settings.usageAnomalyThreshold >= 1 {
      StandingOutIsDearer(SortByDay(days), settings.usageAnomalyThreshold, last);
    }
  }

  lemma StandingOutIsDearer(ordered: seq<DailyCost>, threshold: int, last: Option<int>)
    requires StandsOut(ordered, threshold, last) && threshold >= 1
    ensures ordered[|ordered| - 1].consumedCost > Baseline(BaselineDays(ordered))
  {
    AboveBaseline(ordered[|ordered| - 1].consumedCost, Baseline(BaselineDays(ordered)), threshold as real);
  }

  lemma AboveBaseline(cost: real, baseline: real, threshold: real)
    requires threshold >= 1.0 && baseline > 0.0 && cost * 100.0 >= baseline * (threshold + 99.5)
    ensures cost > baseline
  {
    assert baseline * (threshold + 99.5) >= baseline * 100.5;
  }

  /** A week at 100 a day, and then a day at a little less. */
  lemma SmallDrop() returns (days: seq<DailyCost>)
    ensures Ordered(days) && NoDayTwice(days) && |days| == 8
    ensures days[7].consumedCost == 99.6 && BaselineDays(days) == days[..7] && CostSum(days[..7]) == 700.0
  {
    days := seq(8, i => DailyCost(i, if i < 7 then 100.0 else 99.6));
    FlatSum(days[..7]);
  }

  lemma FiresOnASmallDrop(settings: Settings) returns (days: seq<DailyCost>)
    requires settings.pushEnabled && settings.usageAnomalyAlerts && settings.usageAnomalyThreshold < 1
    ensures FiresOnADrop(days, settings, None)
  {
    days := SmallDrop();
    OrderedIsSorted(days);
    assert Baseline(BaselineDays(days)) == 100.0;
    FiresExactly(days, settings, None);
  }

  lemma OrderedIsSorted(days: seq<DailyCost>)
    requires Ordered(days) && NoDayTwice(days)
    ensures SortByDay(days) == days
  {
    SortSorts(days);
    SortedListingIsUnique(days, SortByDay(days));
  }

  lemma {:induction false} FlatSum(days: seq<DailyCost>)
    requires forall d :: d in days ==> d.consumedCost == 100.0
    ensures CostSum(days) == 100.0 * |days| as real
  {
    if days != [] {
      FlatSum(days[..|days| - 1]);
    }
  }

  // ---------------------------------------------------------------- a costlier day

  /** Two listings of the same entries still are after the same entry is replaced in both. */
  lemma SameUpdate(a: seq<DailyCost>, i: nat, b: seq<DailyCost>, j: nat, entry: DailyCost)
    requires multiset(a) == multiset(b) && i < |a| && j < |b| && a[i] == b[j]
    ensures multiset(a[i := entry]) == multiset(b[j := entry])
  {
  }

  /** Sorting finds the subject at the end, wherever it was listed. */
  lemma SubjectIsLast(days: seq<DailyCost>, i: nat)
    requires i < |days| && NoDayTwice(days)
    requires forall d :: d in days ==> d.day <= days[i].day
    ensures SortByDay(days) != [] && SortByDay(days)[|SortByDay(days)| - 1] == days[i]
  {
    var sorted := SortByDay(days);
    SortSorts(days);
    SameMembers(days, sorted, days[i]);
    LastIsLatest(sorted, days[i]);
    var last := sorted[|sorted| - 1];
    SameMembers(days, sorted, last);
    var k :| 0 <= k < |days| && days[k] == last;
    assert k == i;
  }

  lemma LastIsLatest(sorted: seq<DailyCost>, entry: DailyCost)
    requires Ordered(sorted) && entry in sorted
    ensures sorted != [] && entry.day <= sorted[|sorted| - 1].day
  {
  }

  lemma SortOfUpdatedSubject(days: seq<DailyCost>, i: nat, cost: real)
    requires i < |days| && NoDayTwice(days)
    requires forall d :: d in days ==> d.day <= days[i].day
    ensures var sorted := SortByDay(days);
            sorted != []
            && SortByDay(days[i := DailyCost(days[i].day, cost)]) == sorted[|sorted| - 1 := DailyCost(days[i].day, cost)]
  {
    var dearer := DailyCost(days[i].day, cost);
    var sorted := SortByDay(days);
    SubjectIsLast(days, i);
    SortSorts(days);
    SortSorts(days[i := dearer]);
    DistinctInAnyOrder(days, sorted);
    SameUpdate(sorted, |sorted| - 1, days, i, dearer);
    SameDayKeepsOrder(sorted, |sorted| - 1, dearer);
    SortedListingIsUnique(sorted[|sorted| - 1 := dearer], SortByDay(days[i := dearer]));
  }

  lemma SameDayKeepsOrder(sorted: seq<DailyCost>, i: nat, entry: DailyCost)
    requires Ordered(sorted) && NoDayTwice(sorted) && i < |sorted| && entry.day == sorted[i].day
    ensures Ordered(sorted[i := entry]) && NoDayTwice(sorted[i := entry])
  {
  }

  lemma DearerStandsOut(ordered: seq<DailyCost>, dearer: DailyCost, threshold: int, last: Option<int>)
    requires StandsOut(ordered, threshold, last)
    requires dearer.day == ordered[|ordered| - 1].day && dearer.consumedCost >= ordered[|ordered| - 1].consumedCost
    ensures StandsOut(ordered[|ordered| - 1 := dearer], threshold, last)
  {
    assert BaselineDays(ordered[|ordered| - 1 := dearer]) == BaselineDays(ordered);
  }

  lemma DearerOrderedDayStillFires(ordered: seq<DailyCost>, more: seq<DailyCost>, dearer: DailyCost,
                                   settings: Settings, last: Option<int>)
    requires ordered != [] && more == ordered[|ordered| - 1 := dearer]
    requires dearer.day == ordered[|ordered| - 1].day && dearer.consumedCost >= ordered[|ordered| - 1].consumedCost
    requires EvaluateOrdered(ordered, settings, last).Anomaly?
    ensures EvaluateOrdered(more, settings, last).Anomaly?
  {
    OrderedFiresExactly(ordered, settings, last);
    OrderedFiresExactly(more, settings, last);
    DearerStandsOut(ordered, dearer, settings.usageAnomalyThreshold, last);
  }

  /** A dearer last day can only strengthen the case for a notice. */
  lemma DearerDayStillFires(days: seq<DailyCost>, i: nat, cost: real, settings: Settings, last: Option<int>)
    requires i < |days| && NoDayTwice(days)
    requires forall d :: d in days ==> d.day <= days[i].day
    requires cost >= days[i].consumedCost
    requires EvaluateUsageAnomaly(days, settings, last).Anomaly?
    ensures EvaluateUsageAnomaly(days[i := DailyCost(days[i].day, cost)], settings, last).Anomaly?
  {
    var dearer := DailyCost(days[i].day, cost);
    SubjectIsLast(days, i);
    SortOfUpdatedSubject(days, i, cost);
    DearerOrderedDayStillFires(SortByDay(days), SortByDay(days[i := dearer]), dearer, settings, last);
  }
}
