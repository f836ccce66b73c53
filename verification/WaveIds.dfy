/**
 * Ids of two kinds inside a wave. The devices of a wave are grouped under string keys and
 * looked up with the id of the match (src/notification/notification-queue.processor.ts), so a
 * match that carries a number finds none.
 */
module WaveIds {
  import opened Common
  import opened Matching
  import opened MatchingIds
  import opened Waves
  import opened WaveSteps
  import opened WaveAccounting

  /** The turn of a match: its user's reachable devices, if its id is a string. */
  function TurnOfKind(job: Job, m: Match, text: Kind): Turn {
    TurnFor(job, m).(targets := if text(m) then Targets(job.reachable, m.user) else [])
  }

  /** A match pushes to its user exactly when it carries a string and would push anyway. */
  lemma PushNeedsText(owner: Owner, db: Db, job: Job, m: Match, text: Kind)
    ensures Pushes(owner, db, TurnOfKind(job, m, text)) <==> text(m) && Pushes(owner, db, TurnFor(job, m))
  {
  }

  lemma KindTurnIsValid(owner: Owner, job: Job, m: Match, text: Kind)
    requires Consistent(owner, job) && m in job.matches
    ensures ValidTurn(owner, TurnOfKind(job, m, text))
  {
    var i :| 0 <= i < |job.matches| && job.matches[i] == m;
    TargetsAreTheUsers(job.reachable, m.user);
    TargetsAreDistinct(job.reachable, m.user);
    var targets := Targets(job.reachable, m.user);
    forall j | 0 <= j < |targets| ensures owner(targets[j]) == m.user {
      assert targets[j] in targets;
      var k :| 0 <= k < |job.reachable| && job.reachable[k] == Device(targets[j], m.user);
    }
  }

  /**
   * A complete turn, from any table: a reachable device of the user gets its one new row if
   * the match carries a string, and otherwise only if it is the matched device with a token,
   * which is then excluded for a missing one.
   */
  lemma TurnRowExactly(owner: Owner, db: Db, job: Job, m: Match, text: Kind, d: int)
    requires Consistent(owner, job) && m in job.matches && Device(d, m.user) in job.reachable
    ensures var t := TurnOfKind(job, m, text);
      var after := Waves.Step(owner, db, UserTurn(t, |TurnDevices(t)|, true)).rows;
      && db.rows <= after
      && Times(PushDevices(Added(db.rows, after)), d) == if text(m) || (HasToken(m) && d == m.device) then 1 else 0
  {
    var t := TurnOfKind(job, m, text);
    var e := UserTurn(t, |TurnDevices(t)|, true);
    KindTurnIsValid(owner, job, m, text);
    StepDevices(owner, db, e);
    PushDevicesAdded(db.rows, Waves.Step(owner, db, e).rows, TurnDevices(t));
    TurnTimesElsewhere(owner, t, d);
    TargetsAreTheUsers(job.reachable, m.user);
    assert !text(m) ==> TurnDevices(t) == if HasToken(m) then [m.device] else [];
  }

  /** Every turn of the user in the run comes from a match that carries a number. */
  ghost predicate NumbersOnly(events: seq<Event>, alert: int, user: int) {
    forall i :: 0 <= i < |events| && events[i].UserTurn? && events[i].turn.alert == alert && events[i].turn.user == user
      ==> events[i].turn.targets == []
  }

  lemma StepOfNumbers(owner: Owner, db: Db, e: Event, alert: int, user: int, i: nat)
    requires e.UserTurn? && e.turn.alert == alert && e.turn.user == user ==> e.turn.targets == []
    requires i < |Waves.Step(owner, db, e).rows| && IsWavePush(Waves.Step(owner, db, e).rows[i], owner, alert, user)
    ensures i < |db.rows| && IsWavePush(db.rows[i], owner, alert, user)
  {
  }

  /** So over any run of waves, a user whose matches all carry numbers is never pushed to. */
  lemma {:induction false} NumbersAreNeverPushed(owner: Owner, db: Db, events: seq<Event>, alert: int, user: int, i: nat)
    requires NumbersOnly(events, alert, user)
    requires i < |Waves.Run(owner, db, events).rows| && IsWavePush(Waves.Run(owner, db, events).rows[i], owner, alert, user)
    ensures i < |db.rows| && IsWavePush(db.rows[i], owner, alert, user)
    decreases |events|
  {
    if events != [] {
      NumbersAreNeverPushed(owner, Waves.Step(owner, db, events[0]), events[1..], alert, user, i);
      StepOfNumbers(owner, db, events[0], alert, user, i);
    }
  }

  // --- examples --------------------------------------------------------------------------

  function ZoneMatch(): Match {
    Match(11, 7, Some("token"), High, Manual, 0.5, 1)
  }

  function GpsMatch(): Match {
    Match(11, 7, Some("token"), High, Gps, 0.3, 2)
  }

  /**
   * One device of user 7, matched by a zone with a string and by its position with a number:
   * user 7 is returned twice, and although 7 is the creator, one match passes the filter.
   */
  lemma BothKindsExample()
    ensures var matches, text: Kind := [ZoneMatch(), GpsMatch()], (m: Match) => m.reason == Manual;
      && ReturnedTwice(DeduplicateKinds(matches, text))
      && exists m :: m in DeduplicateKinds(matches, text) && m.user == 7 && PassesFilter(m, text, 7)
  {
    var matches, text: Kind := [ZoneMatch(), GpsMatch()], (m: Match) => m.reason == Manual;
    assert matches[0] == ZoneMatch() && matches[1] == GpsMatch();
    assert OneOwner(matches) && MatchedInBothKinds(matches, text);
    ReturnedTwiceExactly(matches, text);
    CreatorPassesExactly(matches, text, 7);
    assert GpsMatch() in matches;
  }

  /** A match whose token is empty on a device that is reachable by now: the device gets two rows. */
  lemma TwoRowsExample(db: Db, email: int -> EmailResult, recorded: int -> bool)
    ensures var owner: Owner := (device: int) => 7;
      var m := Match(11, 7, Some(""), High, Manual, 0.5, 1);
      var job := Job(1, High, 12, 5, [m], [Device(11, 7)], email, recorded);
      Times(PushDevices(Added(db.rows, Waves.Run(owner, db, JobEvents(job)).rows)), 11) == 2
  {
    var owner: Owner := (device: int) => 7;
    var m := Match(11, 7, Some(""), High, Manual, 0.5, 1);
    var job := Job(1, High, 12, 5, [m], [Device(11, 7)], email, recorded);
    assert job.matches[0] == m && job.reachable[0] == Device(11, 7);
    assert DeviceMatches(job) == [m] by {
      assert [m][1..] == [];
      assert WaveMatches([m], High, 5) == [m] + WaveMatches([], High, 5);
    }
    EveryDeviceOnce(owner, db, job, 0);
  }
}
