/**
 * Waves over alerts that change status meanwhile. A wave job reads the status when
 * it starts (src/notification/notification-queue.processor.ts) and again when it
 * looks for devices (src/location/location.service.ts); alert operations and other
 * waves run at any point between its steps.
 */
module AlertWaves {
  import opened Common
  import AlertLife
  import Waves

  /** How far a wave job has come: past the first status check, or past both. */
  datatype Progress = Checked(alert: nat) | Located(alert: nat)

  datatype System = System(alerts: AlertLife.Db, waves: map<nat, Progress>, table: Waves.Db)

  datatype Event =
    | OnAlerts(change: AlertLife.Event)
    | StartWave(wave: nat, alert: nat)
    | FindDevices(wave: nat)
    | WaveStep(wave: nat, step: Waves.Event)
    | EndWave(wave: nat)
    | Elsewhere(step: Waves.Event)

  predicate IsActive(s: System, alert: nat) {
    alert < |s.alerts.alerts| && s.alerts.alerts[alert].status == AlertLife.Active
  }

  /** The alert a step of a wave is about. */
  function AlertOf(e: Waves.Event): Option<int> {
    match e
    case TokenlessMatch(alert, _) => Some(alert)
    case UserTurn(t, _, _) => Some(t.alert)
    case EmailTurn(alert, _, _, _, _) => Some(alert)
    case _ => None
  }

  ghost function Step(owner: Waves.Owner, s: System, e: Event): System {
    match e
    case OnAlerts(change) => s.(alerts := AlertLife.Step(s.alerts, change))
    case StartWave(w, alert) =>
      if w in s.waves || !IsActive(s, alert) then s else s.(waves := s.waves[w := Checked(alert)])
    case FindDevices(w) =>
      if w !in s.waves || s.waves[w].Located? then s
      else if IsActive(s, s.waves[w].alert) then s.(waves := s.waves[w := Located(s.waves[w].alert)])
      else s.(waves := s.waves - {w})
    case WaveStep(w, step) =>
      if w in s.waves && s.waves[w].Located? && AlertOf(step) == Some(s.waves[w].alert)
      then s.(table := Waves.Step(owner, s.table, step)) else s
    case EndWave(w) => s.(waves := s.waves - {w})
    case Elsewhere(step) => if AlertOf(step).None? then s.(table := Waves.Step(owner, s.table, step)) else s
  }

  ghost function Run(owner: Waves.Owner, s: System, events: seq<Event>): System
    decreases |events|
  {
    if events == [] then s else Run(owner, Step(owner, s, events[0]), events[1..])
  }

  /** The alert is not ACTIVE and no wave for it is past its second check. */
  ghost predicate Quiet(s: System, alert: nat) {
    && alert < |s.alerts.alerts| && !IsActive(s, alert)
    && forall w :: w in s.waves ==> s.waves[w] != Located(alert)
  }

  /** `after` has no more wave rows for the alert, and no more push jobs for one, than `before`. */
  ghost predicate NothingFor(alert: nat, before: Waves.Db, after: Waves.Db) {
    && |before.rows| <= |after.rows|
    && (forall i :: 0 <= i < |before.rows| ==>
          after.rows[i].alert == before.rows[i].alert && after.rows[i].origin == before.rows[i].origin)
    && (forall i :: |before.rows| <= i < |after.rows| && after.rows[i].origin == Waves.FromWave
          ==> after.rows[i].alert != alert)
    && before.jobs <= after.jobs
    && (forall j :: |before.jobs| <= j < |after.jobs| ==>
          |before.rows| <= after.jobs[j] < |after.rows| && after.rows[after.jobs[j]].alert != alert)
  }

  /** A step of another alert's wave, or of none, adds nothing for this alert. */
  lemma OtherStepsAddNothing(owner: Waves.Owner, db: Waves.Db, e: Waves.Event, alert: nat)
    requires AlertOf(e) != Some(alert)
    ensures NothingFor(alert, db, Waves.Step(owner, db, e))
  {
  }

  lemma NothingForChains(alert: nat, a: Waves.Db, b: Waves.Db, c: Waves.Db)
    requires NothingFor(alert, a, b) && NothingFor(alert, b, c)
    ensures NothingFor(alert, a, c)
  {
    forall j | |a.jobs| <= j < |c.jobs|
      ensures |a.rows| <= c.jobs[j] < |c.rows| && c.rows[c.jobs[j]].alert != alert
    {
      if j < |b.jobs| {
        assert c.jobs[j] == b.jobs[j];
        assert |a.rows| <= b.jobs[j] < |b.rows| && b.rows[b.jobs[j]].alert != alert;
      }
    }
  }

  lemma StepStaysQuiet(owner: Waves.Owner, s: System, e: Event, alert: nat)
    requires Quiet(s, alert)
    ensures Quiet(Step(owner, s, e), alert) && NothingFor(alert, s.table, Step(owner, s, e).table)
  {
    match e
    case OnAlerts(change) => AlertLife.StepOnlyCloses(s.alerts, change, alert);
    case WaveStep(w, step) =>
      if w in s.waves && s.waves[w].Located? && AlertOf(step) == Some(s.waves[w].alert) {
        assert s.waves[w].alert != alert;
        OtherStepsAddNothing(owner, s.table, step, alert);
      }
    case Elsewhere(step) =>
      if AlertOf(step).None? { OtherStepsAddNothing(owner, s.table, step, alert); }
    case _ =>
  }

  /**
   * Once an alert has been resolved, cancelled, expired or auto-resolved, every wave that
   * has not yet found its devices creates no row and no push job for it, for ever,
   * whatever other alerts, waves and operations do.
   */
  lemma {:induction false} ClosedAlertsGetNoMoreWaves(owner: Waves.Owner, s: System, events: seq<Event>, alert: nat)
    requires Quiet(s, alert)
    ensures Quiet(Run(owner, s, events), alert)
    ensures NothingFor(alert, s.table, Run(owner, s, events).table)
    decreases |events|
  {
    if events != [] {
      var next := Step(owner, s, events[0]);
      StepStaysQuiet(owner, s, events[0], alert);
      ClosedAlertsGetNoMoreWaves(owner, next, events[1..], alert);
      NothingForChains(alert, s.table, next.table, Run(owner, s, events).table);
    }
  }

  ghost predicate LocatedFor(s: System, alert: nat) {
    exists w :: w in s.waves && s.waves[w] == Located(alert)
  }

  lemma LocatedWaveCanStillInsert(owner: Waves.Owner, s: System, alert: nat, w: nat, device: int)
    requires w in s.waves && s.waves[w] == Located(alert)
    ensures !NothingFor(alert, s.table, Run(owner, s, [WaveStep(w, Waves.TokenlessMatch(alert, device))]).table)
  {
    var step := Waves.TokenlessMatch(alert, device);
    var events := [WaveStep(w, step)];
    assert events[1..] == [];
    assert Run(owner, s, events) == Run(owner, Step(owner, s, events[0]), []);
    var after := Run(owner, s, events).table;
    assert after.rows == s.table.rows + [Waves.Exclusion(alert, s.table.now, device, Waves.PushTokenMissing)];
    assert after.rows[|s.table.rows|].alert == alert;
  }

  /** A closed alert can still get a wave row or push job exactly when a wave for it is past its second check. */
  lemma OnlyLocatedWavesEscape(owner: Waves.Owner, s: System, alert: nat)
    requires alert < |s.alerts.alerts| && !IsActive(s, alert)
    ensures (exists events :: !NothingFor(alert, s.table, Run(owner, s, events).table)) <==> LocatedFor(s, alert)
  {
    if LocatedFor(s, alert) {
      var w :| w in s.waves && s.waves[w] == Located(alert);
      LocatedWaveCanStillInsert(owner, s, alert, w, 0);
    } else {
      forall events ensures NothingFor(alert, s.table, Run(owner, s, events).table) {
        ClosedAlertsGetNoMoreWaves(owner, s, events, alert);
      }
    }
  }
}
