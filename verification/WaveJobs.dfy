/**
 * One whole wave job, `processAlertNotifications`, that runs to completion: its
 * loops make exactly the steps of `WaveSteps`, and leave exactly what `WaveOutcomes` says.
 */
module WaveJobs {
  import opened Common
  import opened Matching
  import opened Waves
  import opened WaveSteps
  import opened WaveVerdicts
  import opened WaveOutcomes

  // --- the processor --------------------------------------------------------------------

  class NotificationQueueProcessor {
    var now: int
    var rows: seq<Row>
    var jobs: seq<nat>
    ghost var batches: seq<Batch>
    ghost var mails: seq<Mail>

    ghost function View(): Db
      reads this
    {
      Db(now, rows, jobs, batches, mails)
    }

    constructor (start: int)
      ensures View() == Waves.Init(start)
    {
      now, rows, jobs, batches, mails := start, [], [], [], [];
    }

    /** `trackExclusion`. */
    method TrackExclusion(alert: int, device: int, reason: Reason)
      modifies this`rows
      ensures View() == old(View()).(rows := old(rows) + [Exclusion(alert, now, device, reason)])
    {
      rows := rows + [Exclusion(alert, now, device, reason)];
    }

    /** The body of the target loop for one user; answers how many pushes were queued. */
    method PushToUser(owner: Owner, t: Turn) returns (queued: nat)
      modifies this
      ensures View() == ApplyTurn(owner, old(View()), t, |TurnDevices(t)|, true)
      ensures TurnLeaves(owner, old(View()), t, View())
      ensures queued == if Pushes(owner, old(View()), t) then |t.targets| else 0
      ensures |jobs| == |old(jobs)| + queued
    {
      ghost var before := View();
      CompleteTurnLeaves(owner, before, t);
      queued := 0;
      if t.targets == [] {
        if t.hasToken { TrackExclusion(t.alert, t.device, PushTokenMissing); }
        assert rows == before.rows + TurnRows(owner, before, t, |TurnDevices(t)|);
        return;
      }
      var reason: Option<Reason> := None;
      if t.quiet && t.wave != High {
        reason := Some(QuietHours);
      } else if HasBeenNotified(rows, owner, t.alert, t.user, Push) {
        reason := Some(AlreadyNotified);
      } else if SentSince(rows, owner, t.user, now - DAY_MS) >= DailyCap(t.wave) {
        reason := Some(OverDailyCap);
      }
      queued := RecordTargets(owner, t, reason);
    }

    /** One row for each target: excluded for the reason, or else queued with its job. */
    method RecordTargets(owner: Owner, t: Turn, reason: Option<Reason>) returns (queued: nat)
      requires t.targets != [] && reason == Refusal(owner, View(), t)
      modifies this
      ensures View() == ApplyTurn(owner, old(View()), t, |t.targets|, true)
      ensures queued == (if reason.None? then |t.targets| else 0) && |jobs| == |old(jobs)| + queued
    {
      ghost var before := View();
      queued := 0;
      for i := 0 to |t.targets|
        invariant rows == before.rows + TurnRows(owner, before, t, i)
        invariant jobs == before.jobs + if reason.None? then Ids(|before.rows|, i) else []
        invariant queued == if reason.None? then i else 0
        invariant now == before.now && batches == before.batches && mails == before.mails
      {
        assert TurnRows(owner, before, t, i + 1) == TurnRows(owner, before, t, i) + [RowFor(owner, before, t, t.targets[i])];
        if reason.Some? {
          rows := rows + [Exclusion(t.alert, now, t.targets[i], reason.value)];
        } else {
          rows := rows + [PushRow(t.alert, now, t.targets[i])];
          jobs := jobs + [|rows| - 1];
          queued := queued + 1;
          assert Ids(|before.rows|, i + 1) == Ids(|before.rows|, i) + [|before.rows| + i];
        }
      }
      if reason.None? { batches := batches + [Batch(t.user, now, t.wave)]; }
    }

    /** The body of the email loop for one user. */
    method EmailUser(owner: Owner, alert: int, user: int, device: int, result: EmailResult, recorded: bool)
      modifies this
      ensures View() == ApplyEmail(owner, old(View()), alert, user, device, result, recorded)
      ensures EmailLeaves(owner, old(View()), alert, user, device, result, recorded, View())
      ensures HasBeenNotified(old(rows), owner, alert, user, Email) ==> View() == old(View())
      ensures recorded && owner(device) == user ==>
        forall a: int, u: int :: MailedOnce(old(View()), owner, a, u) ==> MailedOnce(View(), owner, a, u)
    {
      if recorded && owner(device) == user { EmailKeepsMailedOnce(owner, View(), alert, user, device, result); }
      EmailTurnLeaves(owner, View(), alert, user, device, result, recorded);
      if HasBeenNotified(rows, owner, alert, user, Email) { return; }
      if result == NotAttempted { return; }
      if result == Accepted { mails := mails + [Mail(alert, user)]; }
      if recorded { rows := rows + [EmailRow(alert, now, device, result == Accepted)]; }
    }

    /**
     * `processAlertNotifications` for an alert found with the given status: nothing
     * happens unless it is active, and otherwise exactly the steps of `JobEvents`, which
     * leave what the rows before the job decide for every user. From 22 to 7 o'clock only a
     * HIGH wave pushes; at other times, and in a HIGH wave, nobody is excluded for the hour.
     * The answer is the number of push jobs added.
     */
    method ProcessAlertNotifications(owner: Owner, active: bool, job: Job) returns (queuedCount: nat)
      requires Consistent(owner, job)
      modifies this
      ensures View() == if active then Run(owner, old(View()), JobEvents(job)) else old(View())
      ensures active ==> WaveLeaves(owner, old(View()), job, View())
      ensures job.wave != High && (22 <= job.hour || job.hour < 7) ==>
        && queuedCount == 0 && jobs == old(jobs)
        && forall i :: |old(rows)| <= i < |rows| && rows[i].channel == Push ==>
             rows[i].excluded == Some(QuietHours) || rows[i].excluded == Some(PushTokenMissing)
      ensures job.wave == High || 7 <= job.hour < 22 ==>
        forall i :: |old(rows)| <= i < |rows| ==> rows[i].excluded != Some(QuietHours)
      ensures |jobs| == |old(jobs)| + queuedCount
    {
      ghost var start := View();
      queuedCount := 0;
      if !active { return; }
      var deviceMatches := WaveMatches(job.matches, job.wave, job.creator);
      var userMatches := FirstPerUser(deviceMatches);
      var devicesByUser := GroupDevices(job.reachable);
      MatchTokenless(owner, job, deviceMatches);
      queuedCount := PushAll(owner, job, userMatches, devicesByUser);
      if job.wave == High { EmailAll(owner, job, userMatches); }
      JobInParts(owner, start, job);
      CompletedWaveLeaves(owner, start, job);
      QuietHoursExactly(owner, start, job, View());
    }

    method FirstPerUser(matches: seq<Match>) returns (userMatches: seq<Match>)
      ensures userMatches == KeepBest(matches, UserOf, Never)
    {
      userMatches := [];
      for i := 0 to |matches|
        invariant userMatches == KeepBest(matches[..i], UserOf, Never)
      {
        assert matches[..i + 1][..i] == matches[..i];
        var at := IndexOfKey(userMatches, UserOf, matches[i].user);
        if at == |userMatches| { userMatches := userMatches + [matches[i]]; }
      }
      assert matches[..|matches|] == matches;
    }

    /** The loop over the matched users. */
    method PushAll(owner: Owner, job: Job, userMatches: seq<Match>, devicesByUser: map<int, seq<int>>) returns (queuedCount: nat)
      requires Consistent(owner, job) && userMatches == UserMatches(job)
      requires forall user: int :: (if user in devicesByUser then devicesByUser[user] else []) == Targets(job.reachable, user)
      modifies this
      ensures View() == Run(owner, old(View()), TurnEvents(job, userMatches))
      ensures |jobs| == |old(jobs)| + queuedCount
    {
      ghost var start := View();
      ghost var turns := TurnEvents(job, userMatches);
      queuedCount := 0;
      assert turns[..0] == [];
      for i := 0 to |userMatches|
        invariant View() == Run(owner, start, turns[..i])
        invariant |jobs| == |start.jobs| + queuedCount
      {
        var m := userMatches[i];
        var targets := if m.user in devicesByUser then devicesByUser[m.user] else [];
        TurnsAreValid(owner, job, i);
        RunNext(owner, start, turns, i);
        var queued := TakeTurn(owner, job, m, targets);
        queuedCount := queuedCount + queued;
      }
      assert turns[..|userMatches|] == turns;
    }

    /** One iteration: a step of the machine. */
    method TakeTurn(owner: Owner, job: Job, m: Match, targets: seq<int>) returns (queued: nat)
      requires targets == Targets(job.reachable, m.user) && ValidTurn(owner, TurnFor(job, m))
      modifies this
      ensures View() == Step(owner, old(View()), UserTurn(TurnFor(job, m), |TurnDevices(TurnFor(job, m))|, true))
      ensures |jobs| == |old(jobs)| + queued
    {
      queued := PushToUser(owner, Turn(job.alert, job.wave, IsQuietHour(job.hour), m.user, m.device, HasToken(m), targets));
    }

    method GroupDevices(devices: seq<Device>) returns (byUser: map<int, seq<int>>)
      ensures forall user: int :: (if user in byUser then byUser[user] else []) == Targets(devices, user)
    {
      byUser := map[];
      for i := 0 to |devices|
        invariant forall user: int :: (if user in byUser then byUser[user] else []) == Targets(devices[..i], user)
      {
        var d := devices[i];
        assert devices[..i + 1][..i] == devices[..i];
        var list := if d.user in byUser then byUser[d.user] else [];
        assert list == Targets(devices[..i], d.user);
        byUser := byUser[d.user := list + [d.id]];
      }
      assert devices[..|devices|] == devices;
    }

    method MatchTokenless(owner: Owner, job: Job, matches: seq<Match>)
      modifies this`rows
      ensures View() == Run(owner, old(View()), TokenlessEvents(job, matches))
    {
      ghost var start := View();
      for i := 0 to |matches|
        invariant View() == Run(owner, start, TokenlessEvents(job, matches[..i]))
      {
        assert matches[..i + 1][..i] == matches[..i];
        assert TokenlessEvents(job, matches[..i + 1]) == TokenlessEvents(job, matches[..i])
          + (if HasToken(matches[i]) then [] else [TokenlessMatch(job.alert, matches[i].device)]);
        if HasToken(matches[i]) {
          assert TokenlessEvents(job, matches[..i + 1]) == TokenlessEvents(job, matches[..i]);
        } else {
          ghost var e := TokenlessMatch(job.alert, matches[i].device);
          RunConcat(owner, start, TokenlessEvents(job, matches[..i]), [e]);
          RunOne(owner, View(), e);
          TrackExclusion(job.alert, matches[i].device, PushTokenMissing);
        }
      }
      assert matches[..|matches|] == matches;
    }

    method EmailAll(owner: Owner, job: Job, userMatches: seq<Match>)
      requires Consistent(owner, job) && userMatches == UserMatches(job)
      modifies this
      ensures View() == Run(owner, old(View()), EmailEvents(job, userMatches)) && jobs == old(jobs)
    {
      ghost var start := View();
      ghost var emails := EmailEvents(job, userMatches);
      assert emails[..0] == [];
      for i := 0 to |userMatches|
        invariant View() == Run(owner, start, emails[..i]) && jobs == start.jobs
      {
        var m := userMatches[i];
        TurnsAreValid(owner, job, i);
        RunNext(owner, start, emails, i);
        EmailUser(owner, job.alert, m.user, m.device, job.email(m.user), job.recorded(m.user));
      }
      assert emails[..|userMatches|] == emails;
    }
  }
}
