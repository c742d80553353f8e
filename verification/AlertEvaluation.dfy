/** The rules a successful poll is judged by: its severity, the recharge it saw, and the alerts that follow. */
module AlertEvaluation {
  import opened Prelude
  import opened Portal

  datatype Severity = OK | LOW | DEPLETED {
    function Rank(): nat {
      match this
      case OK => 0
      case LOW => 1
      case DEPLETED => 2
    }
  }

  datatype AlertKind = LowBalance | BalanceDepleted | RechargeDetected

  /** A user's settings after the defaults have been filled in. */
  datatype Settings = Settings(
    pushEnabled: bool,
    lowBalanceAlerts: bool,
    lowBalanceThreshold: real,
    rechargeAlerts: bool,
    usageAnomalyAlerts: bool,
    usageAnomalyThreshold: int)

  const DEFAULT_SETTINGS := Settings(true, true, 100.0, true, true, 40)

  datatype PreviousState = PreviousState(severity: Severity, lastRechargeToken: Option<string>)

  const INITIAL_STATE := PreviousState(OK, None)

  datatype Evaluation = Evaluation(
    severity: Severity,
    lastRechargeToken: Option<string>,
    alerts: seq<AlertKind>,
    newRecharge: Option<Recharge>)

  function SeverityFor(balance: real, threshold: real): Severity {
    if balance <= 0.0 then DEPLETED
    else if balance < threshold then LOW
    else OK
  }

  /** Severity can only improve when the balance rises. */
  lemma SeverityFallsWithBalance(low: real, high: real, threshold: real)
    requires low <= high
    ensures SeverityFor(low, threshold).Rank() >= SeverityFor(high, threshold).Rank()
  {
  }

  function LatestRecharge(rs: seq<Recharge>): Option<Recharge> {
    if rs == [] then None
    else
      var newest := LatestRecharge(rs[..|rs| - 1]);
      var r := rs[|rs| - 1];
      if r.rechargeStatus == SUCCESS && (newest.None? || r.rechargedDate > newest.value.rechargedDate)
      then Some(r) else newest
  }

  /** Row `i` is the most recent successful recharge, the first listed among equals. */
  ghost predicate IsLatest(rs: seq<Recharge>, i: nat) {
    && i < |rs|
    && rs[i].rechargeStatus == SUCCESS
    && (forall j :: 0 <= j < |rs| && rs[j].rechargeStatus == SUCCESS ==> rs[j].rechargedDate <= rs[i].rechargedDate)
    && (forall j :: 0 <= j < i && rs[j].rechargeStatus == SUCCESS ==> rs[j].rechargedDate < rs[i].rechargedDate)
  }

  lemma {:induction false} LatestRechargeIsLatest(rs: seq<Recharge>)
    ensures LatestRecharge(rs).None? <==> forall r :: r in rs ==> r.rechargeStatus != SUCCESS
    ensures LatestRecharge(rs).Some? ==> exists i: nat :: IsLatest(rs, i) && LatestRecharge(rs) == Some(rs[i])
  {
    if rs != [] {
      var n := |rs| - 1;
      var init := rs[..n];
      LatestRechargeIsLatest(init);
      assert rs == init + [rs[n]];
      var older := LatestRecharge(init);
      if rs[n].rechargeStatus == SUCCESS && (older.None? || rs[n].rechargedDate > older.value.rechargedDate) {
        assert IsLatest(rs, n);
      } else if older.Some? {
        var i: nat :| IsLatest(init, i) && older == Some(init[i]);
        assert IsLatest(rs, i);
      }
    }
  }

  method FindLatestRecharge(rs: seq<Recharge>) returns (newest: Option<Recharge>)
    ensures newest == LatestRecharge(rs)
  {
    newest := None;
    for i := 0 to |rs|
      invariant newest == LatestRecharge(rs[..i])
    {
      assert rs[..i + 1][..i] == rs[..i];
      if rs[i].rechargeStatus != SUCCESS { continue; }
      if newest == None || rs[i].rechargedDate > newest.value.rechargedDate {
        newest := Some(rs[i]);
      }
    }
    assert rs[..|rs|] == rs;
  }

  function Evaluate(previous: PreviousState, reading: Snapshot, settings: Settings): Evaluation {
    var severity := SeverityFor(reading.balance, settings.lowBalanceThreshold);
    var newest := LatestRecharge(reading.recharges);
    var lastRechargeToken := if newest.Some? then Some(newest.value.token) else previous.lastRechargeToken;
    var isNewRecharge :=
      newest.Some? && previous.lastRechargeToken.Some? && newest.value.token != previous.lastRechargeToken.value;
    if !settings.pushEnabled then
      Evaluation(severity, lastRechargeToken, [], None)
    else
      var recharged := if isNewRecharge && settings.rechargeAlerts then [RechargeDetected] else [];
      var worsened := severity.Rank() > previous.severity.Rank() && settings.lowBalanceAlerts;
      var balance :=
        if worsened then [if severity == DEPLETED then BalanceDepleted else LowBalance] else [];
      var alerts := recharged + balance;
      Evaluation(severity, lastRechargeToken, alerts, if RechargeDetected in alerts then newest else None)
  }

  /** When each alert is decided: on worsening only, and never for a recharge that was there when the meter was
      first seen. */
  lemma AlertsExactly(previous: PreviousState, reading: Snapshot, settings: Settings)
    ensures var alerts := Evaluate(previous, reading, settings).alerts;
            && (LowBalance in alerts <==>
                  && Enabled(settings, LowBalance) && previous.severity == OK
                  && 0.0 < reading.balance < settings.lowBalanceThreshold)
            && (BalanceDepleted in alerts <==>
                  Enabled(settings, BalanceDepleted) && previous.severity != DEPLETED && reading.balance <= 0.0)
            && (RechargeDetected in alerts <==>
                  && Enabled(settings, RechargeDetected) && previous.lastRechargeToken.Some?
                  && exists i: nat :: IsLatest(reading.recharges, i)
                                      && reading.recharges[i].token != previous.lastRechargeToken.value)
            && (RechargeDetected in alerts ==> alerts[0] == RechargeDetected)
            && (forall i, j :: 0 <= i < j < |alerts| ==> alerts[i] != alerts[j])
  {
    var rs := reading.recharges;
    LatestRechargeIsLatest(rs);
    forall i: nat, j: nat | IsLatest(rs, i) && IsLatest(rs, j) ensures i == j {
      LatestIsOne(rs, i, j);
    }
  }

  lemma LatestIsOne(rs: seq<Recharge>, i: nat, j: nat)
    requires IsLatest(rs, i) && IsLatest(rs, j)
    ensures i == j
  {
  }

  predicate IsSeverityAlert(kind: AlertKind) {
    kind == LowBalance || kind == BalanceDepleted
  }

  /** Whether a user's settings let an alert of this kind through. */
  predicate Enabled(settings: Settings, kind: AlertKind) {
    settings.pushEnabled
    && (if kind == RechargeDetected then settings.rechargeAlerts else settings.lowBalanceAlerts)
  }

  function Unmuted(settings: Settings): Settings {
    settings.(pushEnabled := true, lowBalanceAlerts := true, rechargeAlerts := true)
  }

  function OnlyEnabled(settings: Settings, alerts: seq<AlertKind>): seq<AlertKind> {
    if alerts == [] then []
    else (if Enabled(settings, alerts[0]) then [alerts[0]] else []) + OnlyEnabled(settings, alerts[1..])
  }

  /** The settings choose which alerts are heard; they never change what is recorded. */
  lemma MutingOnlyFilters(previous: PreviousState, reading: Snapshot, settings: Settings)
    ensures var e := Evaluate(previous, reading, settings);
            var loud := Evaluate(previous, reading, Unmuted(settings));
            && e.severity == loud.severity
            && e.lastRechargeToken == loud.lastRechargeToken
            && e.alerts == OnlyEnabled(settings, loud.alerts)
            && (e.newRecharge.Some? <==> RechargeDetected in e.alerts)
  {
    var loud := Evaluate(previous, reading, Unmuted(settings)).alerts;
    assert OnlyEnabled(settings, []) == [];
    if |loud| == 2 {
      assert loud[1..] == [loud[1]];
      assert loud[1..][1..] == [];
      assert OnlyEnabled(settings, loud[1..]) == (if Enabled(settings, loud[1]) then [loud[1]] else []);
    } else if |loud| == 1 {
      assert loud[1..] == [];
    }
  }
}
