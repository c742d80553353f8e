# A verified model of the NESCO metering backend

The backend polls prepaid electricity meters on a utility portal, turns consecutive balances into usage windows, sends
alerts, charts usage by Dhaka day, and lets people recover a password with a mailed code. This project models that logic
in Dafny and proves what its comments, schema and documentation promise: over every run, every interleaving and every
input, not one call at a time. `dafny verify dfyconfig.toml` checks all of it.

## How the model is laid out

- **Metering.** `UsageSampling` and `AlertEvaluation` are the two pure rule files. `MeterPoll` holds the two tables kept
  for a meter and what one poll writes to them. `MeterHistory` runs any sequence of polls that succeed, fail, roll back,
  lose a push or die half-way; `Tiling`, `MeterConservation` and `MeterAlerts` say what such histories keep: time,
  money and alerts. Money is `real` with two-decimal rounding written out (`Money`); "exact" theorems take figures in
  whole poisha, the others bound the rounding.
- **Reading.** `Analytics` is the `bounds`/`spread` query and the grouping above it as functions over stored windows, in
  microseconds of Dhaka wall clock; `AnalyticsProperties` says what the series owe to the windows. `UsageAnomaly` decides
  on a notice from the daily series.
- **The sweep.** `BalanceSweep` interleaves polls given as scripts of atomic database steps, and `PollScript` is the
  script of the service's own poll. `SweepHistory` interleaves the polls of any number of ticks and shows that what they do
  to a meter is that meter's history, as long as none outlives its tick. `SweepService` is the service with its `running` flag, its table and its batch loop, and what
  it leaves behind when a poll throws. `AdvisoryLock` is the lock call and the protocol of many instances around it.
- **Password recovery.** `PasswordResetPolicy` (rules), `PasswordReset` (the rows of one email, and the single slot they
  amount to), `PasswordResetRuns` (whole runs), `PasswordResetService` (the service with its tables),
  `ResetInterleaving` (resets split into read, verify and write steps) and `RequestInterleaving` (requests split into
  throttle and commit); `Overlap` counts how many of them are open at once.
- **Portal text.** `CivilTime` is Gregorian arithmetic as in section 21.4.1 of ECMA-262 and Dhaka time on top of it;
  `PortalText` and `PortalStamps` read and print the three stamp formats; `IsoDays` is the `YYYY-MM-DD` arithmetic of the
  sweep; `RechargeTable` reads the recharge report by its headings.

## Where the code and its documentation part

- `src/database/schema/index.ts:274-279` says that windows chain off the stored instant and so tile with no gap and no
  overlap. `recordSuccess` writes that instant unconditionally, so a poll without a usable stamp followed by an older
  stamp moves it back. The rows lead without a gap or an overlap to the stored instant, at every point of a run, exactly
  when no reading instant goes back once one has advanced (`MeterHistory.RowsLeadExactlyWhenNeverBack`); they do so from
  the very first reading exactly when no instant ever goes back (`TilesExactlyWhenInstantsNeverGoBack`); and as a set,
  in whatever order they were stored, they tile a stretch exactly when every poll joins on
  (`RowsTileExactlyWhenPollsJoinOn`). `MissingStampCanBreakTiling` is a run that breaks all three.
- `src/modules/nesco/portal/nesco.parsing.ts:124-133` checks that a stamp is a real date but compares only year, month
  and day: a minute of 75 is accepted as long as the day does not change (`CivilTime.AcceptedExactly`,
  `PortalStamps.MinuteSeventyFiveIsAccepted`).
- `src/modules/alerts/usage-anomaly.ts:83` says that a notice never fires on a drop. With notices
  switched on that holds exactly for thresholds of one percent or more (`UsageAnomaly.NeverOnADropExactly`); the settings
  form admits 10 to 500.
- The attempt ceiling of `src/modules/auth/password-reset.policy.ts:28` is five for calls one at a time; with `k` resets
  in flight it is `4 + k`, and that is reached (`ResetInterleaving.BoundIsReached`). The quota of line 34 widens in the
  same way for requests that overlap (`RequestInterleaving.BoundIsReached`).
- `src/modules/auth/password-reset.service.ts:199-201` consumes a code so that it is not usable again, but the write does
  not look whether the code still is live. With `k` resets in flight one code signs in up to `k` callers, and that is
  reached; so it signs in at most one exactly when resets come one at a time (`ResetInterleaving.SignsInOnceExactly`).
- `src/modules/auth/password-reset.service.ts:93-96` says that only the newest code works. When requests overlap, the
  code committed last may have begun first; then no code works until the next request, as in the run
  `RequestInterleaving.NoCodeWorks`. The code committed last works exactly when every other request began at a strictly
  earlier millisecond (`LastCodeWorksExactly`). And a code replaced while its reset is in flight still signs in
  (`ResetInterleaving.ReplacedCodeSignsIn`).
- `src/modules/alerts/balance-sweep.service.ts:185-191` keeps passes from overlapping, but a sweep that throws clears the
  guard while the rest of its batch goes on; and lines 508-509 say that a colliding window can only be a replay. Of two
  polls that start from one row, one having outlived its tick, the second to commit loses its measurement to such a
  collision unless both read the same instant (`SweepHistory.OutlivingPollLosesAWindow`, `LostHour`).

## Model

| member | source | states |
|---|---|---|
| UsageSampling.ResolveReadingInstant | src/modules/alerts/usage-sampling.ts:49-63 | the instant never lies after the poll; it is the portal's stamp exactly when there is one no later than the poll |
| UsageSampling.SumRecharges | src/modules/alerts/usage-sampling.ts:109-130 | the loop with its three skips computes the rounded ledger of successful recharges in the half-open window |
| UsageSampling.LedgerSplits | src/modules/alerts/usage-sampling.ts:98-130 | adjacent windows share no recharge and lose none |
| UsageSampling.AgreeingListingsGiveOneLedger | src/modules/alerts/usage-sampling.ts:109-130 | two scrapes that list the same successful recharges up to an instant, in any order, total the same in every window ending by then |
| UsageSampling.SampleBalances | src/modules/alerts/usage-sampling.ts:149-208 | for any real inputs the raw delta is within a poisha of balance lost plus unrounded credits; the cost is never negative, zero when suppressed, and otherwise at most a poisha above the delta |
| UsageSampling.SampleBalancesExactly | src/modules/alerts/usage-sampling.ts:149-175 | with whole-poisha inputs the balance identity is exact |
| UsageSampling.SuppressedExactly | src/modules/alerts/usage-sampling.ts:177-207 | each anomaly occurs exactly when its condition holds, cross-multiplied: the delta, the hourly ceiling times the window, the window length |
| Money.Round2FixedPoints | src/modules/alerts/usage-sampling.ts:93-96 | rounding leaves a figure alone exactly when it is whole poisha |
| Money.Round2Close | src/modules/alerts/usage-sampling.ts:93-96 | rounding moves a figure by at most half a poisha and always yields whole poisha |
| Tiling.ChainTiles | src/database/schema/index.ts:274-279 | windows chained end to start measure each instant of their stretch once and no other instant |
| Tiling.ChainCoveredTime | src/database/schema/index.ts:274-279 | the time a chain covers of any interval is the interval's overlap with the chain's stretch |
| MeterHistory.RowsLeadExactlyWhenNeverBack | src/database/schema/index.ts:274-279 | over any run, failures, crashes and lost pushes included: at every point the rows chain without gap or overlap to the stored instant if and only if no reading instant goes back once one has advanced |
| MeterHistory.TilesExactlyWhenInstantsNeverGoBack | src/modules/alerts/balance-sweep.service.ts:472-558 | at every point the rows chain from the very first reading to the last if and only if no reading instant ever goes back |
| MeterHistory.RowsTileExactlyWhenPollsJoinOn | src/database/schema/index.ts:274-279 | as a set the rows tile some stretch at every point if and only if every advancing poll stores the first row, or has a window that starts at the latest row's end, ends at the earliest row's start, or repeats an old key |
| MeterHistory.IntactHistoryMeasuresOnce | src/modules/alerts/balance-sweep.service.ts:472-558 | then every instant from first to last reading lies in exactly one stored sample and no window ends after the last reading |
| MeterHistory.PollKeepsTiling | src/modules/alerts/balance-sweep.service.ts:501-517 | one committed poll keeps the chain exactly when its instant does not go back; the insert then always has a fresh key, so the conflict clause discards nothing |
| MeterHistory.PollEffect | src/modules/alerts/balance-sweep.service.ts:472-518 | what the one transaction leaves: sample inserted, balance, instant, severity and token advanced, the anomaly marker kept, also when a later push fails |
| MeterHistory.QuietEventsKeepReadings | src/modules/alerts/balance-sweep.service.ts:560-589 | failed, rolled-back and dead polls and anomaly checks leave samples, balance, instant, severity and token untouched |
| MeterHistory.FailuresAreCounted | src/modules/alerts/balance-sweep.service.ts:490-499 | after any run the stored counter is the number of failures since the last poll that got through, and a reason is stored exactly while there are some |
| MeterHistory.GoingBackDamages | src/modules/alerts/usage-sampling.ts:153-154 | whenever the stored instant lies short of the last row, the next poll to advance into the rows either has its measurement discarded or measures the overlap twice |
| MeterHistory.MissingStampCanBreakTiling | src/modules/alerts/usage-sampling.ts:53-60 | a concrete run of four polls, one without a stamp, after which an hour is measured twice |
| MeterHistory.SplitCommitsLoseAWindow | src/modules/alerts/balance-sweep.service.ts:503-517 | with the sample committed before the state, a crash between them makes the next window vanish as a replay, its time never measured |
| MeterConservation.BooksBalance | src/modules/alerts/usage-sampling.ts:132-147 | over a coherent history the raw deltas sum to first balance minus last plus the ledger's credits, each recharge once: exactly in poisha, within a poisha per window otherwise |
| MeterConservation.StoredSamplesAreWellBuilt | src/database/schema/index.ts:308-315 | every sample any run stores advances, costs whole poisha and never less than nothing, zero when suppressed |
| MeterConservation.ChartReconcilesWithThePortal | src/modules/analytics/analytics.service.ts:196-210 | from scrape to chart: a daily or weekly series spanning an unsuppressed history adds up to what the balance lost plus credits, at most a poisha a window above, and to what the ledger says was paid |
| MeterConservation.HistoriesNeverOvercover | src/modules/analytics/analytics.service.ts:275-292 | for meters whose instants never went back no returned bucket has raw coverage above one, and its denominator is never zero |
| AlertEvaluation.LatestRechargeIsLatest | src/modules/alerts/alert-evaluation.ts:55-76 | the answer is the successful recharge of latest date, the first listed among equals, and absent exactly when none succeeded |
| AlertEvaluation.FindLatestRecharge | src/modules/alerts/alert-evaluation.ts:63-76 | the loop finds that recharge |
| AlertEvaluation.AlertsExactly | src/modules/alerts/alert-evaluation.ts:82-149 | exactly when each kind of alert is decided, in terms of balance, threshold, previous severity and the latest successful recharge's token; never a recharge alert on first sight |
| AlertEvaluation.MutingOnlyFilters | src/modules/alerts/alert-evaluation.ts:94-97 | severity and token never depend on what is muted, and the alerts are the unmuted ones filtered by the enabled kinds |
| AlertEvaluation.SeverityFallsWithBalance | src/modules/alerts/alert-evaluation.ts:49-53 | at one threshold a lower balance is never less severe |
| MeterAlerts.SeverityAlertsBounded | src/modules/alerts/alert-evaluation.ts:87-92 | with a fixed threshold a whole history decides at most 2 * (1 + rises of the balance) severity alerts |
| MeterAlerts.AlertBoundIsReached | src/modules/alerts/alert-evaluation.ts:87-92 | for every number of rises some history reaches that bound |
| MeterAlerts.AlertsAreRearmed | src/modules/alerts/alert-evaluation.ts:87-92 | with any thresholds, between two low-balance alerts some poll read OK and between two depletion alerts some poll read not depleted, failures and lost pushes anywhere |
| MeterAlerts.MutingKeepsMemory | src/modules/alerts/alert-evaluation.ts:94-97 | two histories of the same readings that differ only in muting remember the same severity and token at every point |
| MeterAlerts.MutingNeverReplays | src/modules/alerts/alert-evaluation.ts:94-97 | each step's alerts are the unmuted history's alerts at that step, filtered by what is enabled then |
| MeterAlerts.NoticeIsNewAndComplete | src/modules/alerts/balance-sweep.service.ts:341-392 | a notice is about a complete day, never later than yesterday, and later than the last one announced |
| MeterAlerts.DaysAreAnnouncedOnce | src/modules/alerts/balance-sweep.service.ts:350-387 | over any run the announced days strictly increase and the stored marker is the last of them |
| UsageAnomaly.SortSorts | src/modules/alerts/usage-anomaly.ts:97-100 | the copy is ordered by day and holds the same entries |
| UsageAnomaly.OrderDoesNotMatter | src/modules/alerts/usage-anomaly.ts:97-141 | permuting distinct days changes nothing of the decision |
| UsageAnomaly.FiresExactly | src/modules/alerts/usage-anomaly.ts:102-141 | in whatever order the days are listed, a notice goes out exactly when notices are on, the latest day is unreported, history and floor suffice and its cost reaches the baseline plus the threshold less half a percent, said without division or rounding |
| UsageAnomaly.FindingIsAccurate | src/modules/alerts/usage-anomaly.ts:111-140 | the finding's day, cost, baseline and percentage are right to the nearest poisha and percent, and the baseline is the up to fourteen days before the subject, among the days listed put in order |
| UsageAnomaly.NeverOnADropExactly | src/modules/alerts/usage-anomaly.ts:81-84 | no series makes a drop fire if and only if notices are off or the threshold is at least one percent |
| UsageAnomaly.DearerDayStillFires | src/modules/alerts/usage-anomaly.ts:102-141 | raising the cost of the last day, wherever it is listed, never silences a notice |
| Analytics.CalendarRange | src/modules/analytics/analytics.service.ts:99-138 | the run of consecutive Dhaka days from first to last, with the instants they begin and end at |
| Analytics.ResolveRange | src/modules/analytics/analytics.service.ts:99-138 | each of the three refusals occurs exactly in its case; otherwise the range is the calendar range, `to` included |
| Analytics.RangeHoldsItsDays | src/modules/analytics/analytics.service.ts:91-98 | an instant lies in the half-open range exactly when its Dhaka day is one of the days |
| Analytics.CalendarKeys | src/modules/analytics/analytics.service.ts:233-266 | a week bucket is the Monday on or up to six days before its day, weekdays run 1 to 7 and follow the calendar |
| AnalyticsProperties.WindowSharedOut | src/modules/analytics/analytics.service.ts:163-219 | unclipped, a window's per-day times are all positive and sum to its length; its cost and recharges fall on one day, the one its end lies in |
| AnalyticsProperties.SpreadOneOnDay | src/modules/analytics/analytics.service.ts:178-224 | the window prefilter and the day clip neither lose nor add anything on a requested day |
| AnalyticsProperties.SpreadOnDay | src/modules/analytics/analytics.service.ts:178-224 | a requested day's sums are the samples' own shares of that day, whatever range was asked for |
| AnalyticsProperties.GroupsPartition | src/modules/analytics/analytics.service.ts:233-266 | the groups of any granularity add up to the rows they group |
| AnalyticsProperties.EveryCostIsBilledOnce | src/modules/analytics/analytics.service.ts:176-266 | daily and weekly buckets both sum to precisely the samples whose closing day was asked for |
| AnalyticsProperties.PointsAddUpExactly | src/modules/analytics/analytics.service.ts:275-292 | rounding each point loses nothing of that total, stored figures being whole poisha |
| AnalyticsProperties.SplittingARangeSplitsThePoints | src/modules/analytics/analytics.service.ts:48-72 | asking for a range in two halves returns the same daily points, coverage included |
| AnalyticsProperties.WeekdayMeansRecombine | src/modules/analytics/analytics.service.ts:255-266 | weekday averages weighted by their distinct observed days give the whole cost back |
| AnalyticsProperties.DayIsAtMostADay | src/modules/analytics/analytics.service.ts:163-169 | meters whose samples tile time are observed for at most a day each per day |
| AnalyticsProperties.BucketTimeBounded | src/modules/analytics/analytics.service.ts:233-266 | a bucket holds at most a day per meter for each distinct day in it |
| AnalyticsProperties.CoverageNeverExceedsOne | src/modules/analytics/analytics.service.ts:275-327 | for daily, weekly and weekday buckets alike raw coverage is at most one and the expected days are never zero |
| AnalyticsProperties.DailyCoverage | src/modules/analytics/analytics.service.ts:281-292 | a daily point's coverage is the time the samples cover of that day over a day per meter, rounded: the cap never acts |
| BalanceSweep.OneByOneIsPerMeter | src/modules/alerts/balance-sweep.service.ts:239-250 | polled one by one, each meter is polled once, from what was stored when the sweep began |
| BalanceSweep.StepKeepsCourse | src/modules/alerts/balance-sweep.service.ts:242-244 | whichever unfinished poll of a batch takes its next database step, every poll still ends where it would have ended alone, and fewer steps remain |
| BalanceSweep.SettledBatch | src/modules/alerts/balance-sweep.service.ts:242-244 | a finished batch leaves the tables and outcomes of one-by-one polling |
| BalanceSweep.EveryOutcomeIsCounted | src/modules/alerts/balance-sweep.service.ts:246-249 | when no poll throws, failures and successes add up to the polls |
| PollScript.ScriptEndsAsWritten | src/modules/alerts/balance-sweep.service.ts:269-330 | the atomic steps of a poll, uninterrupted, end as the service's own sequence of record, push and check, with a throw only when a failure cannot be recorded |
| SweepService.BalanceSweepService.PollMeter | src/modules/alerts/balance-sweep.service.ts:269-330 | a poll lengthens its meter's history by its own events and touches no other meter; it is null only with a failure on the stored count and not null only with the count cleared |
| SweepService.BalanceSweepService.PollBatch | src/modules/alerts/balance-sweep.service.ts:242-244 | for every interleaving of its polls the batch terminates, with the tables and outcomes of one-by-one polling if none throws and otherwise with every poll somewhere on its own course |
| SweepService.BalanceSweepService.Sweep | src/modules/alerts/balance-sweep.service.ts:224-258 | for any concurrency of at least one it throws exactly when some poll does, giving up in that poll's batch; otherwise tables and counts are those of polling one by one, and failed plus non-null outcomes is checked |
| SweepService.BalanceSweepService.RunSweep | src/modules/alerts/balance-sweep.service.ts:177-222 | every exit leaves `running` as it was found; only a granted lock and readable meters change anything; rows are read from the tables; a sweep that throws reports idle with its batch under way |
| SweepService.BalanceSweepService.RunOutTick | src/modules/alerts/balance-sweep.service.ts:242-244 | the polls a thrown sweep left under way end, however they interleave, as they would have one by one |
| SweepHistory.PollIsItsEvents | src/modules/alerts/balance-sweep.service.ts:269-330 | what a poll leaves of a meter is what its events leave in a history |
| SweepHistory.TablesAreHistories | src/modules/alerts/balance-sweep.service.ts:177-258 | in any run of row readings and single database steps, the polls of one tick or of many interleaved, that reads no meter while a poll of it is under way, every meter's record is the run of that meter's history or will be when its poll ends; so all history theorems hold of the tables |
| SweepHistory.StoredRowsLead | src/database/schema/index.ts:274-279 | so the stored rows of a meter chain to its stored instant as long as its readings never go back once advanced |
| SweepHistory.TickIsMoves | src/modules/alerts/balance-sweep.service.ts:177-258 | a tick that finds no poll of its meters under way, run to its end, is such moves and leaves the tables of polling one by one up to the batch it gives up in |
| SweepHistory.StaleRowStoresNothing | src/modules/alerts/balance-sweep.service.ts:501-558 | of two polls that commit from one row, the first advancing, the second stores no sample and moves the instant: the rows lead there if and only if both read the same one |
| SweepHistory.OutlivingPollLosesAWindow | src/modules/alerts/balance-sweep.service.ts:209-221 | in any run, a meter read again before its poll has ended loses that measurement in the same way |
| SweepHistory.LostHour | src/modules/alerts/balance-sweep.service.ts:209-221 | a concrete run from an empty table in which an hour goes unmeasured |
| AdvisoryLock.AdvisoryLockService.RunExclusively | src/database/advisory-lock.service.ts:38-73 | on every path the connection goes back, the caller sees what `work` did, and a session holds more than before only if the unlock query was lost |
| AdvisoryLock.OneCallIsItsMoves | src/database/advisory-lock.service.ts:38-73 | one uninterrupted call is a list of the protocol's moves that can be taken one after another and leaves the lock as `RunExclusively` says |
| AdvisoryLock.InvStep | src/database/advisory-lock.service.ts:38-73 | every step of every instance keeps: one call per instance and session, one holder, every worker holds the lock |
| AdvisoryLock.AtMostOneSweep | src/modules/alerts/balance-sweep.service.ts:177-222 | in every run in which no session dies under a working sweep at most one call works, and `running` is set for exactly the instances that have a call |
| AdvisoryLock.NothingIsLeftLocked | src/database/advisory-lock.service.ts:54-73 | while unlock queries succeed a connection returned to the pool holds nothing, and with nobody working the lock is free |
| AdvisoryLock.DeadSessionAdmitsASecond | src/database/advisory-lock.service.ts:57-59 | why the proviso is needed: a session dying under a working sweep lets the next asker in beside it |
| PasswordResetPolicy.QueryWindowIsEnough | src/modules/auth/password-reset.service.ts:254-272 | querying only rows inside the hour decides as querying all rows |
| PasswordResetPolicy.RetryAdviceIsExact | src/modules/auth/password-reset.policy.ts:112-152 | waiting the advised seconds clears the reason, after a quota wait nothing throttles, and any smaller whole number of seconds does not |
| PasswordReset.NewestIsLast | src/modules/auth/password-reset.service.ts:154-170 | under the invariant the newest-first query has one candidate, the row inserted last |
| PasswordReset.IssuedMeansSpaced | src/modules/auth/password-reset.policy.ts:112-147 | a request nothing throttles keeps issues a minute apart and five to the hour |
| PasswordReset.RequestRefines | src/modules/auth/password-reset.service.ts:72-117 | a request has the outcome and effect it has on a single slot, and keeps the table's invariant |
| PasswordReset.ResetRefines | src/modules/auth/password-reset.service.ts:150-218 | a reset has the outcome and effect it has on a single slot, whichever newest row is returned |
| PasswordResetRuns.ManyRowsAreOneSlot | src/modules/auth/password-reset.service.ts:93-117 | over any run every outcome is the slot's; at most one row is unconsumed and it is the strictly newest |
| PasswordResetRuns.RedeemedOnceInTime | src/modules/auth/password-reset.service.ts:150-218 | a code redeems at most once: only the newest issued, under fifteen minutes old, after fewer than five misses |
| PasswordResetRuns.IssueRates | src/modules/auth/password-reset.policy.ts:30-35 | over any run the rows of the table were issued at least 60 s apart and at most five in any half-open hour; they are the slot's issues |
| PasswordResetRuns.AttemptsAreMisses | src/modules/auth/password-reset.service.ts:177-187 | each row's counter is the number of mismatches recorded against it, each dated within that row's time |
| PasswordResetRuns.GuessRate | src/modules/auth/password-reset.policy.ts:21-35 | over any run at most thirty mismatches are recorded in any half-open hour |
| PasswordResetRuns.AdviceIsExactInEveryRun | src/modules/auth/password-reset.service.ts:254-272 | along every run the retry advice is exact |
| PasswordResetService.PasswordResetService.Request | src/modules/auth/password-reset.service.ts:72-141 | the reply and the table after a request, by the slot specification, the mail outcome included; other emails untouched |
| PasswordResetService.PasswordResetService.Reset | src/modules/auth/password-reset.service.ts:150-229 | a password changes exactly when the slot redeems the guess, and then the code is spent with it |
| ResetInterleaving.NoIncrementIsLost | src/modules/auth/password-reset.service.ts:177-184 | for every interleaving of reads, checks and writes a row's attempts are the mismatches written against it |
| ResetInterleaving.AttemptsBounded | src/modules/auth/password-reset.service.ts:154-187 | with at most k resets in flight, attempts plus those still to write are at most the ceiling minus one plus k |
| ResetInterleaving.OneAtATimeKeepsTheCeiling | src/modules/auth/password-reset.service.ts:154-187 | one at a time, attempts never pass five |
| ResetInterleaving.BothMismatchesCount | src/modules/auth/password-reset.service.ts:178-180 | any two mismatches in flight that read the same count both register, in either order, where writing back one more than each had read registers one |
| ResetInterleaving.BoundIsReached | src/modules/auth/password-reset.service.ts:154-187 | for every k some run reaches the bound |
| ResetInterleaving.RedemptionsBounded | src/modules/auth/password-reset.service.ts:150-213 | with at most k resets in flight one code signs in at most k callers, those still in flight included once it has signed one in, and is spent from then on |
| ResetInterleaving.RedemptionsReached | src/modules/auth/password-reset.service.ts:150-213 | for every k some run signs in exactly k callers with one code |
| ResetInterleaving.SignsInOnceExactly | src/modules/auth/password-reset.service.ts:199-201 | no run signs in two callers with one code if and only if at most one reset is in flight |
| ResetInterleaving.SpentExactly | src/modules/auth/password-reset.service.ts:97-109 | over any run a row is consumed exactly when a later code was issued or it has signed somebody in |
| ResetInterleaving.ReplacedCodeSignsIn | src/modules/auth/password-reset.service.ts:202-206 | a run with one reset in flight in which a code already replaced signs in and the newer one stays live |
| RequestInterleaving.IssuesBounded | src/modules/auth/password-reset.service.ts:88-117 | with at most k requests between throttle and commit, the codes issued in any half-open hour plus those still to be committed in it are at most the quota minus one plus k |
| RequestInterleaving.BoundIsReached | src/modules/auth/password-reset.service.ts:88-117 | for every k some run issues that many codes in one hour |
| RequestInterleaving.OnlyLastCommittedIsLive | src/modules/auth/password-reset.service.ts:93-117 | however requests overlap, only the row committed last can be unconsumed |
| RequestInterleaving.OvertakenCodeIsDead | src/modules/auth/password-reset.service.ts:154-173 | a code just committed is the only one a reset can find exactly when every other row is strictly older; every pick of another row, on a tie or newer, is rejected as spent whatever the guess |
| RequestInterleaving.LastCodeWorksExactly | src/modules/auth/password-reset.service.ts:93-96 | after any run every reset is answered as for the code issued last if and only if its request began at a strictly later instant than every other |
| RequestInterleaving.NoCodeWorks | src/modules/auth/password-reset.service.ts:93-117 | a run of two overlapping requests after which every guess is rejected as spent, whichever newest row is returned |
| CivilTime.NextYear | src/modules/nesco/portal/nesco.parsing.ts:122-127 | the closed formula for the first day of a year steps by the Gregorian length of the year |
| CivilTime.DateOfIsReal | src/modules/nesco/portal/nesco.parsing.ts:122-127 | the date of a day number is on the calendar and has that day number |
| CivilTime.DateOfMakeDay | src/modules/nesco/portal/nesco.parsing.ts:122-127 | a real date is the date of its own day number |
| CivilTime.DatesAscend | src/modules/nesco/portal/nesco.parsing.ts:122-127 | calendar order is day-number order |
| CivilTime.AcceptedExactly | src/modules/nesco/portal/nesco.parsing.ts:109-137 | accepted if and only if a real date from the year 100 on with a time of day short of midnight, and then read as the second it names |
| CivilTime.AcceptedStampsAscend | src/modules/nesco/portal/nesco.parsing.ts:109-137 | accepted stamps are ordered as their dates and times of day |
| CivilTime.PartsRoundTrip | src/modules/nesco/portal/nesco.parsing.ts:109-137 | the Dhaka wall clock of an instant reads back as the instant |
| PortalStamps.SlashRoundTrip | src/modules/nesco/portal/nesco.parsing.ts:140-166 | the slash form of every instant of the years 100 to 9999, in either script, reads back |
| PortalStamps.SlashAcceptedExactly | src/modules/nesco/portal/nesco.parsing.ts:140-166 | whatever two digits stand for hour, minute and second, a real date is accepted exactly when they come to less than a day, and read as the second they come to |
| PortalStamps.MinuteSeventyFiveIsAccepted | src/modules/nesco/portal/nesco.parsing.ts:124-133 | 10:75:00 on 1 January 2026 is read as the second of 11:15 |
| PortalStamps.RechargeRoundTrip | src/modules/nesco/portal/nesco.parsing.ts:192-228 | so does the recharge form at whole minutes, padded or not |
| PortalStamps.BalanceRoundTrip | src/modules/nesco/portal/nesco.parsing.ts:430-465 | so does the balance form, behind any label without a digit and before any white space |
| PortalStamps.ReadersAgree | src/modules/nesco/portal/nesco.parsing.ts:140-228 | where the formats overlap the three readers return the same instant |
| PortalStamps.MeridiemReadsBack | src/modules/nesco/portal/nesco.parsing.ts:173-190 | every hour of the day, 12 AM and 12 PM included, survives the 12-hour clock |
| PortalStamps.LastGroupIsRead | src/modules/nesco/portal/nesco.parsing.ts:467-478 | the stamp is read from the last parenthesised group, however many stand before it |
| IsoDays.IsoNamesItsDay | src/modules/alerts/balance-sweep.service.ts:69-73 | the date string of a day names that day |
| IsoDays.DaysBeforeShifts | src/modules/alerts/balance-sweep.service.ts:79-84 | shifting a string that names a day gives the string of the shifted day, across months and years |
| IsoDays.IsoDaysAscend | src/modules/alerts/balance-sweep.service.ts:353-353 | comparing the strings is comparing the days |
| RechargeTable.RequireColumn | src/modules/nesco/portal/nesco.parsing.ts:328-338 | the first column under the heading, or an error exactly when there is none |
| RechargeTable.ReadsByHeading | src/modules/nesco/portal/nesco.parsing.ts:501-563 | rearranging columns or adding unrelated ones changes neither the history read nor the error raised |
| RechargeTable.HistoryDescribesTable | src/modules/nesco/portal/nesco.parsing.ts:522-562 | every field of every row read is the cell under its own heading |
| RechargeTable.AmountRoundTrip | src/modules/nesco/portal/nesco.parsing.ts:81-99 | any cell that comes down to a plain decimal of however many places, through commas, spaces, sign and either script, reads as that decimal |

## Left out

- IEEE floating point: figures are reals, so rounding is the two-decimal rounding the code asks for and nothing else.
- UsageSampling.SampleBalances: does not bound the rounding of binary floating point itself, because figures are reals.
- RechargeTable.AmountRoundTrip: covers plain decimals; exponents, hexadecimal and the other forms `Number()` takes are refused by the model.
- IsoDays.DaysBeforeShifts: does not cover years beyond four digits, which `toISOString` writes with a sign.
- CivilTime.AcceptedExactly: leaves out the range limit of JavaScript dates, which four-digit years never reach.
- SweepHistory.TablesAreHistories: does not include a process that dies with polls under way; that is an event of `MeterHistory`.
- AdvisoryLock.AdvisoryLockService.RunExclusively: takes the result of `work` as given; what other instances do meanwhile is in the protocol.
- Unicode normalisation of headings and the extraction of tables and labelled inputs from HTML: tables start as values with normalised headings.
- Settings, emails and ranges arrive resolved: filling in default settings, normalising emails and reading the `from` and `to` dates are inputs to the model.
- Hashing, tokens, mail and the drawing of codes: verifying a hash is comparing with the code issued, and codes are given. Verification rows of other types do not occur.
- Push delivery and message texts: a push either succeeds or throws, and delivery at least once is not promised by the code nor claimed here.
- PostgreSQL: a transaction is one atomic step, a meter's samples are kept in insertion order under the key (meter, window start), and `AT TIME ZONE 'Asia/Dhaka'` is a shift of six hours.
- A scheduler is not modelled: when a sweep is due, and with which cron expression, is outside.
- The response envelope of the analytics endpoint (`observedDays`, `total`, the meter count query) and the ownership filter by user.
- UsageAnomaly.OrderDoesNotMatter: days are day numbers there; that the strings compare alike is `IsoDays.IsoDaysAscend`, and `localeCompare` is taken to order them as `<` does.
- The monthly consumption table and the customer details: they read their cells as the recharge table does.
- Unconditional tiling and at-least-once alerts: the code does not give them.
