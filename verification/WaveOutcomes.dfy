/**
 * What a whole wave job leaves, decided from the table as it stood before the job
 * (src/notification/notification-queue.processor.ts): no turn of the job changes the verdict
 * on another user.
 */
module WaveOutcomes {
  import opened Common
  import opened Matching
  import opened Waves
  import opened WaveSteps
  import opened WaveVerdicts

  // --- the outcome ------------------------------------------------------------------------

  ghost predicate InWave(job: Job, m: Match) {
    m in job.matches && m.confidence == job.wave && m.user != job.creator
  }

  ghost predicate CanReach(job: Job, user: int) {
    exists d :: Device(d, user) in job.reachable
  }

  ghost predicate Tokenful(m: Match) {
    m.pushToken.Some? && m.pushToken.value != ""
  }

  /** The verdict on a user of the wave, from the rows before it. */
  ghost function UserVerdict(owner: Owner, before: Db, job: Job, user: int): Option<Reason> {
    Verdict(before.rows, owner, before.now, job.alert, job.wave, 22 <= job.hour || job.hour < 7, user)
  }

  ghost predicate HasNew(before: Db, after: Db, row: Row) {
    exists i :: |before.rows| <= i < |after.rows| && after.rows[i] == row
  }

  /** A device's row: the verdict on its user, who is in the wave. */
  ghost predicate IsDeviceRow(owner: Owner, before: Db, job: Job, row: Row) {
    exists m :: InWave(job, m) && Device(row.device, m.user) in job.reachable
      && row == Written(job.alert, row.device, UserVerdict(owner, before, job, m.user), before.now)
  }

  /** The row of a match whose device cannot be pushed to. */
  ghost predicate IsMissingToken(before: Db, job: Job, row: Row) {
    exists m :: InWave(job, m) && (!Tokenful(m) || !CanReach(job, m.user))
      && row == Written(job.alert, m.device, Some(PushTokenMissing), before.now)
  }

  ghost predicate Emails(owner: Owner, before: Db, job: Job, user: int) {
    job.wave == High && !Stands(before.rows, owner, job.alert, user, Email) && job.email(user) != NotAttempted
  }

  ghost function EmailRecord(before: Db, job: Job, m: Match): Row {
    Row(job.alert, m.device, Email, None, if job.email(m.user) == Accepted then Sent else Failed, before.now, FromWave)
  }

  ghost predicate HasNewMail(before: Db, after: Db, mail: Mail) {
    exists k :: |before.mails| <= k < |after.mails| && after.mails[k] == mail
  }

  ghost predicate IsEmailRow(owner: Owner, before: Db, job: Job, row: Row) {
    exists m :: InWave(job, m) && Emails(owner, before, job, m.user) && job.recorded(m.user)
      && row == EmailRecord(before, job, m)
  }

  /** Every new row is one of these, every new job is for a new queued push row, and every such row has one. */
  ghost predicate OnlyOutcomes(owner: Owner, before: Db, job: Job, after: Db) {
    && after.now == before.now && before.rows <= after.rows && before.jobs <= after.jobs && before.mails <= after.mails
    && (forall i :: |before.rows| <= i < |after.rows| ==>
          IsDeviceRow(owner, before, job, after.rows[i]) || IsMissingToken(before, job, after.rows[i])
          || IsEmailRow(owner, before, job, after.rows[i]))
    && (forall j :: |before.jobs| <= j < |after.jobs| ==>
          |before.rows| <= after.jobs[j] < |after.rows| && Queues(after.rows[after.jobs[j]]))
    && (forall i :: |before.rows| <= i < |after.rows| && Queues(after.rows[i]) ==> i in after.jobs[|before.jobs|..])
    && (forall k :: |before.mails| <= k < |after.mails| ==> IsNewMail(owner, before, job, after.mails[k]))
  }

  ghost predicate Queues(row: Row) {
    row.channel == Push && row.excluded.None?
  }

  ghost predicate IsNewMail(owner: Owner, before: Db, job: Job, mail: Mail) {
    exists m :: InWave(job, m) && Emails(owner, before, job, m.user) && job.email(m.user) == Accepted
      && mail == Mail(job.alert, m.user)
  }

  /** All devices of a user get the verdict; without one, some match of theirs is recorded as missing a token. */
  ghost predicate UserServed(owner: Owner, before: Db, job: Job, after: Db, user: int) {
    && (forall d :: Device(d, user) in job.reachable ==>
          HasNew(before, after, Written(job.alert, d, UserVerdict(owner, before, job, user), before.now)))
    && (!CanReach(job, user) ==>
          (exists m :: InWave(job, m) && m.user == user
             && HasNew(before, after, Written(job.alert, m.device, Some(PushTokenMissing), before.now))))
  }

  ghost predicate UserMailed(owner: Owner, before: Db, job: Job, after: Db, user: int) {
    Emails(owner, before, job, user) ==>
      && (job.recorded(user) ==>
            (exists m :: InWave(job, m) && m.user == user && HasNew(before, after, EmailRecord(before, job, m))))
      && (job.email(user) == Accepted ==> HasNewMail(before, after, Mail(job.alert, user)))
  }

  /** Exactly what a complete job leaves. */
  ghost predicate WaveLeaves(owner: Owner, before: Db, job: Job, after: Db) {
    && OnlyOutcomes(owner, before, job, after)
    && (forall m :: InWave(job, m) ==> UserServed(owner, before, job, after, m.user) && UserMailed(owner, before, job, after, m.user))
    && (forall m :: InWave(job, m) && !Tokenful(m) ==>
          HasNew(before, after, Written(job.alert, m.device, Some(PushTokenMissing), before.now)))
  }

  // --- the three phases of a job --------------------------------------------------------------

  lemma NewStays(before: Db, mid: Db, after: Db, row: Row)
    requires HasNew(before, mid, row) && mid.rows <= after.rows
    ensures HasNew(before, after, row)
  {
    var i :| |before.rows| <= i < |mid.rows| && mid.rows[i] == row;
    assert after.rows[i] == row;
  }

  /** While token-less matches are recorded, nothing but their exclusions is new. */
  ghost predicate OnlyExclusions(before: Db, after: Db) {
    && after == before.(rows := after.rows) && before.rows <= after.rows
    && forall i :: |before.rows| <= i < |after.rows| ==> after.rows[i].excluded.Some? && after.rows[i].channel == Push
  }

  lemma {:induction false} TokenlessPhase(owner: Owner, before: Db, job: Job, ms: seq<Match>)
    requires forall m :: m in ms ==> InWave(job, m)
    ensures var after := Run(owner, before, TokenlessEvents(job, ms));
      && OnlyExclusions(before, after) && OnlyOutcomes(owner, before, job, after)
      && forall m :: m in ms && !Tokenful(m) ==>
           HasNew(before, after, Written(job.alert, m.device, Some(PushTokenMissing), before.now))
  {
    if ms != [] {
      var n := |ms| - 1;
      var rest, last := ms[..n], ms[n];
      TokenlessPhase(owner, before, job, rest);
      var mid, after := Run(owner, before, TokenlessEvents(job, rest)), Run(owner, before, TokenlessEvents(job, ms));
      if HasToken(last) {
        assert TokenlessEvents(job, ms) == TokenlessEvents(job, rest);
      } else {
        var e := TokenlessMatch(job.alert, last.device);
        RunConcat(owner, before, TokenlessEvents(job, rest), [e]);
        RunOne(owner, mid, e);
        var row := Written(job.alert, last.device, Some(PushTokenMissing), before.now);
        assert after.rows == mid.rows + [row];
        assert IsMissingToken(before, job, row);
        assert after.rows[|mid.rows|] == row;
      }
      forall m | m in ms && !Tokenful(m)
        ensures HasNew(before, after, Written(job.alert, m.device, Some(PushTokenMissing), before.now))
      {
        if m in rest { NewStays(before, mid, after, Written(job.alert, m.device, Some(PushTokenMissing), before.now)); }
      }
    }
  }

  /** What holds before the turn of `ms[k]`: only the users before it have rows that count, and no email is new. */
  ghost predicate BeforeTurn(owner: Owner, before: Db, job: Job, ms: seq<Match>, k: nat, db: Db)
    requires k <= |ms|
  {
    && OnlyOutcomes(owner, before, job, db) && db.mails == before.mails
    && (forall i :: |before.rows| <= i < |db.rows| ==> db.rows[i].channel == Push)
    && (forall l :: k <= l < |ms| ==> Foreign(db.rows, owner, ms[l].user, |before.rows|))
  }

  /** The turn of one match, and what it leaves for the others. */
  lemma TurnPhase(owner: Owner, before: Db, job: Job, ms: seq<Match>, k: nat, db: Db)
    requires Consistent(owner, job) && DistinctUsers(ms) && k < |ms| && InWave(job, ms[k])
    requires BeforeTurn(owner, before, job, ms, k, db)
    ensures var t := TurnFor(job, ms[k]);
      var after := ApplyTurn(owner, db, t, |TurnDevices(t)|, true);
      && BeforeTurn(owner, before, job, ms, k + 1, after) && db.rows <= after.rows
      && UserServedBy(owner, before, job, after, ms[k])
  {
    var m := ms[k];
    var t := TurnFor(job, m);
    var after := ApplyTurn(owner, db, t, |TurnDevices(t)|, true);
    CompleteTurnLeaves(owner, db, t);
    VerdictIgnoresForeign(before.rows, db.rows, owner, db.now, t.alert, t.wave, t.quiet, m.user);
    assert Verdict(db.rows, owner, db.now, t.alert, t.wave, t.quiet, t.user) == UserVerdict(owner, before, job, m.user);
    TurnRowsAreOutcomes(owner, before, job, m, db, after);
    TurnServes(owner, before, job, m, db, after);
    forall l | k + 1 <= l < |ms| ensures Foreign(after.rows, owner, ms[l].user, |before.rows|) {
      assert Foreign(db.rows, owner, ms[l].user, |before.rows|) && ms[l].user != m.user;
      forall i | |before.rows| <= i < |after.rows| ensures after.rows[i].excluded.Some? || owner(after.rows[i].device) != ms[l].user {
        if i >= |db.rows| { assert after.rows[i].excluded.Some? || owner(after.rows[i].device) == m.user; }
      }
    }
  }

  /** The devices of a match's user have their rows, or the match itself if it holds a token and they have none. */
  ghost predicate UserServedBy(owner: Owner, before: Db, job: Job, after: Db, m: Match) {
    && (forall d :: Device(d, m.user) in job.reachable ==>
          HasNew(before, after, Written(job.alert, d, UserVerdict(owner, before, job, m.user), before.now)))
    && (!CanReach(job, m.user) && Tokenful(m) ==>
          HasNew(before, after, Written(job.alert, m.device, Some(PushTokenMissing), before.now)))
  }

  lemma TargetsMeanReach(job: Job, user: int)
    ensures Targets(job.reachable, user) != [] <==> CanReach(job, user)
  {
    TargetsAreTheUsers(job.reachable, user);
    var targets := Targets(job.reachable, user);
    if targets != [] { assert targets[0] in targets && Device(targets[0], user) in job.reachable; }
  }

  /** One row of a turn. */
  lemma TurnRowIsOutcome(owner: Owner, before: Db, job: Job, m: Match, db: Db, after: Db, i: nat)
    requires Consistent(owner, job) && InWave(job, m) && db.now == before.now && TurnLeaves(owner, db, TurnFor(job, m), after)
    requires Verdict(db.rows, owner, db.now, job.alert, job.wave, IsQuietHour(job.hour), m.user) == UserVerdict(owner, before, job, m.user)
    requires |db.rows| <= i < |after.rows|
    ensures after.rows[i].channel == Push && (after.rows[i].excluded.Some? || owner(after.rows[i].device) == m.user)
    ensures IsDeviceRow(owner, before, job, after.rows[i]) || IsMissingToken(before, job, after.rows[i])
  {
    var t := TurnFor(job, m);
    TargetsMeanReach(job, m.user);
    TargetsAreTheUsers(job.reachable, m.user);
    if t.targets != [] {
      var d := t.targets[i - |db.rows|];
      assert d in t.targets;
      var k :| 0 <= k < |job.reachable| && job.reachable[k] == Device(d, m.user);
      assert after.rows[i].device == d;
    }
  }

  lemma TurnRowsAreOutcomes(owner: Owner, before: Db, job: Job, m: Match, db: Db, after: Db)
    requires Consistent(owner, job) && InWave(job, m) && OnlyOutcomes(owner, before, job, db) && db.mails == before.mails
    requires TurnLeaves(owner, db, TurnFor(job, m), after)
    requires Verdict(db.rows, owner, db.now, job.alert, job.wave, IsQuietHour(job.hour), m.user) == UserVerdict(owner, before, job, m.user)
    requires forall i :: |before.rows| <= i < |db.rows| ==> db.rows[i].channel == Push
    ensures OnlyOutcomes(owner, before, job, after) && after.mails == before.mails && db.rows <= after.rows
    ensures forall i :: |before.rows| <= i < |after.rows| ==> after.rows[i].channel == Push
    ensures forall i :: |db.rows| <= i < |after.rows| ==> after.rows[i].excluded.Some? || owner(after.rows[i].device) == m.user
  {
    forall i: nat | |db.rows| <= i < |after.rows|
      ensures after.rows[i].channel == Push && (after.rows[i].excluded.Some? || owner(after.rows[i].device) == m.user)
      ensures IsDeviceRow(owner, before, job, after.rows[i]) || IsMissingToken(before, job, after.rows[i])
    {
      TurnRowIsOutcome(owner, before, job, m, db, after, i);
    }
    NewJobsFollow(owner, before, job, TurnFor(job, m), db, after);
  }

  lemma NewJobsFollow(owner: Owner, before: Db, job: Job, t: Turn, db: Db, after: Db)
    requires OnlyOutcomes(owner, before, job, db) && TurnLeaves(owner, db, t, after)
    ensures forall j :: |before.jobs| <= j < |after.jobs| ==>
      |before.rows| <= after.jobs[j] < |after.rows| && Queues(after.rows[after.jobs[j]])
    ensures forall i :: |before.rows| <= i < |after.rows| && Queues(after.rows[i]) ==> i in after.jobs[|before.jobs|..]
  {
    forall i | |before.rows| <= i < |after.rows| && Queues(after.rows[i]) ensures i in after.jobs[|before.jobs|..] {
      if i < |db.rows| {
        assert i in db.jobs[|before.jobs|..];
        var j :| |before.jobs| <= j < |db.jobs| && db.jobs[j] == i;
        assert after.jobs[j] == i;
      } else {
        var j := |db.jobs| + (i - |db.rows|);
        assert after.jobs[j] == i;
      }
    }
  }

  lemma TurnServes(owner: Owner, before: Db, job: Job, m: Match, db: Db, after: Db)
    requires before.rows <= db.rows && db.now == before.now && TurnLeaves(owner, db, TurnFor(job, m), after)
    requires Verdict(db.rows, owner, db.now, job.alert, job.wave, IsQuietHour(job.hour), m.user) == UserVerdict(owner, before, job, m.user)
    ensures UserServedBy(owner, before, job, after, m)
  {
    var t := TurnFor(job, m);
    TargetsMeanReach(job, m.user);
    TargetsAreTheUsers(job.reachable, m.user);
    forall d | Device(d, m.user) in job.reachable
      ensures HasNew(before, after, Written(job.alert, d, UserVerdict(owner, before, job, m.user), before.now))
    {
      var k :| 0 <= k < |t.targets| && t.targets[k] == d;
      assert after.rows[|db.rows| + k].device == d;
    }
    if t.targets == [] && t.hasToken { assert after.rows[|db.rows|] == Written(job.alert, m.device, Some(PushTokenMissing), before.now); }
  }

  lemma StepOfTurn(owner: Owner, db: Db, t: Turn)
    requires ValidTurn(owner, t)
    ensures Step(owner, db, UserTurn(t, |TurnDevices(t)|, true)) == ApplyTurn(owner, db, t, |TurnDevices(t)|, true)
  {
  }

  lemma NextTurn(owner: Owner, start: Db, job: Job, ms: seq<Match>, k: nat)
    requires k < |ms| && ValidTurn(owner, TurnFor(job, ms[k]))
    ensures var turns, t := TurnEvents(job, ms), TurnFor(job, ms[k]);
      Run(owner, start, turns[..k + 1]) == ApplyTurn(owner, Run(owner, start, turns[..k]), t, |TurnDevices(t)|, true)
  {
    RunNext(owner, start, TurnEvents(job, ms), k);
    StepOfTurn(owner, Run(owner, start, TurnEvents(job, ms)[..k]), TurnFor(job, ms[k]));
  }

  /** The first `k` turns are done. */
  ghost predicate AfterTurns(owner: Owner, before: Db, job: Job, start: Db, ms: seq<Match>, k: nat, db: Db)
    requires k <= |ms|
  {
    && BeforeTurn(owner, before, job, ms, k, db) && start.rows <= db.rows
    && forall i :: 0 <= i < k ==> UserServedBy(owner, before, job, db, ms[i])
  }

  lemma NoTurnYet(owner: Owner, before: Db, job: Job, start: Db, ms: seq<Match>)
    requires BeforeTurn(owner, before, job, ms, 0, start)
    ensures AfterTurns(owner, before, job, start, ms, 0, start)
  {
  }

  lemma OneMoreTurn(owner: Owner, before: Db, job: Job, start: Db, ms: seq<Match>, k: nat, db: Db)
    requires Consistent(owner, job) && DistinctUsers(ms) && k < |ms| && InWave(job, ms[k])
    requires AfterTurns(owner, before, job, start, ms, k, db)
    ensures var t := TurnFor(job, ms[k]);
      AfterTurns(owner, before, job, start, ms, k + 1, ApplyTurn(owner, db, t, |TurnDevices(t)|, true))
  {
    var t := TurnFor(job, ms[k]);
    TurnPhase(owner, before, job, ms, k, db);
    AllStayServed(owner, before, job, db, ApplyTurn(owner, db, t, |TurnDevices(t)|, true), ms, k);
  }

  /** All turns of a job, one match per user. */
  lemma {:induction false} TurnsPhase(owner: Owner, before: Db, job: Job, start: Db, ms: seq<Match>, k: nat)
    requires Consistent(owner, job) && DistinctUsers(ms) && k <= |ms|
    requires forall i :: 0 <= i < |ms| ==> InWave(job, ms[i]) && ValidTurn(owner, TurnFor(job, ms[i]))
    requires AfterTurns(owner, before, job, start, ms, 0, start)
    ensures AfterTurns(owner, before, job, start, ms, k, Run(owner, start, TurnEvents(job, ms)[..k]))
  {
    var turns := TurnEvents(job, ms);
    if k == 0 {
      assert turns[..0] == [];
    } else {
      TurnsPhase(owner, before, job, start, ms, k - 1);
      NextTurn(owner, start, job, ms, k - 1);
      OneMoreTurn(owner, before, job, start, ms, k - 1, Run(owner, start, turns[..k - 1]));
    }
  }

  lemma AllStayServed(owner: Owner, before: Db, job: Job, mid: Db, after: Db, ms: seq<Match>, n: nat)
    requires n <= |ms| && mid.rows <= after.rows && forall i :: 0 <= i < n ==> UserServedBy(owner, before, job, mid, ms[i])
    ensures forall i :: 0 <= i < n ==> UserServedBy(owner, before, job, after, ms[i])
  {
    forall i | 0 <= i < n ensures UserServedBy(owner, before, job, after, ms[i]) {
      ServedStays(owner, before, job, mid, after, ms[i]);
    }
  }

  lemma ServedStays(owner: Owner, before: Db, job: Job, mid: Db, after: Db, m: Match)
    requires UserServedBy(owner, before, job, mid, m) && mid.rows <= after.rows
    ensures UserServedBy(owner, before, job, after, m)
  {
    forall d | Device(d, m.user) in job.reachable
      ensures HasNew(before, after, Written(job.alert, d, UserVerdict(owner, before, job, m.user), before.now))
    {
      NewStays(before, mid, after, Written(job.alert, d, UserVerdict(owner, before, job, m.user), before.now));
    }
    if !CanReach(job, m.user) && Tokenful(m) {
      NewStays(before, mid, after, Written(job.alert, m.device, Some(PushTokenMissing), before.now));
    }
  }

  // --- the emails ---------------------------------------------------------------------------

  /** What holds before the email to `ms[k]`: no email is new for it or a later user. */
  ghost predicate BeforeEmail(owner: Owner, before: Db, job: Job, ms: seq<Match>, k: nat, db: Db)
    requires k <= |ms|
  {
    && OnlyOutcomes(owner, before, job, db)
    && forall l, i :: k <= l < |ms| && |before.rows| <= i < |db.rows| && db.rows[i].channel == Email
         ==> owner(db.rows[i].device) != ms[l].user
  }

  ghost predicate MailedBy(owner: Owner, before: Db, job: Job, after: Db, m: Match) {
    Emails(owner, before, job, m.user) ==>
      && (job.recorded(m.user) ==> HasNew(before, after, EmailRecord(before, job, m)))
      && (job.email(m.user) == Accepted ==> HasNewMail(before, after, Mail(job.alert, m.user)))
  }

  lemma EmailPhase(owner: Owner, before: Db, job: Job, ms: seq<Match>, k: nat, db: Db)
    requires DistinctUsers(ms) && k < |ms| && InWave(job, ms[k]) && job.wave == High && owner(ms[k].device) == ms[k].user
    requires BeforeEmail(owner, before, job, ms, k, db)
    ensures var m := ms[k];
      var after := ApplyEmail(owner, db, job.alert, m.user, m.device, job.email(m.user), job.recorded(m.user));
      && BeforeEmail(owner, before, job, ms, k + 1, after) && db.rows <= after.rows && db.mails <= after.mails
      && after.jobs == db.jobs && MailedBy(owner, before, job, after, m)
  {
    var m := ms[k];
    var result, recorded := job.email(m.user), job.recorded(m.user);
    var after := ApplyEmail(owner, db, job.alert, m.user, m.device, result, recorded);
    EmailTurnLeaves(owner, db, job.alert, m.user, m.device, result, recorded);
    StandsIgnoresForeign(before.rows, db.rows, owner, job.alert, m.user, Email);
    assert Stands(db.rows, owner, job.alert, m.user, Email) == Stands(before.rows, owner, job.alert, m.user, Email);
    if Emails(owner, before, job, m.user) {
      if recorded {
        assert after.rows[|db.rows|] == EmailRecord(before, job, m);
        assert IsEmailRow(owner, before, job, after.rows[|db.rows|]);
      }
      if result == Accepted {
        assert after.mails[|db.mails|] == Mail(job.alert, m.user);
        assert IsNewMail(owner, before, job, after.mails[|db.mails|]);
      }
    }
    forall i | |before.rows| <= i < |after.rows| && Queues(after.rows[i]) ensures i in after.jobs[|before.jobs|..] {
      assert i < |db.rows|;
    }
  }

  /** The first `k` emails are done. */
  ghost predicate AfterEmails(owner: Owner, before: Db, job: Job, start: Db, ms: seq<Match>, k: nat, db: Db)
    requires k <= |ms|
  {
    && BeforeEmail(owner, before, job, ms, k, db) && start.rows <= db.rows && start.mails <= db.mails
    && forall i :: 0 <= i < k ==> MailedBy(owner, before, job, db, ms[i])
  }

  lemma NoEmailYet(owner: Owner, before: Db, job: Job, start: Db, ms: seq<Match>)
    requires BeforeEmail(owner, before, job, ms, 0, start)
    ensures AfterEmails(owner, before, job, start, ms, 0, start)
  {
  }

  lemma OneMoreEmail(owner: Owner, before: Db, job: Job, start: Db, ms: seq<Match>, k: nat, db: Db)
    requires DistinctUsers(ms) && k < |ms| && InWave(job, ms[k]) && job.wave == High && owner(ms[k].device) == ms[k].user
    requires AfterEmails(owner, before, job, start, ms, k, db)
    ensures var m := ms[k];
      AfterEmails(owner, before, job, start, ms, k + 1,
        ApplyEmail(owner, db, job.alert, m.user, m.device, job.email(m.user), job.recorded(m.user)))
  {
    var m := ms[k];
    EmailPhase(owner, before, job, ms, k, db);
    AllStayMailed(owner, before, job, db,
      ApplyEmail(owner, db, job.alert, m.user, m.device, job.email(m.user), job.recorded(m.user)), ms, k);
  }

  lemma {:induction false} EmailsPhase(owner: Owner, before: Db, job: Job, start: Db, ms: seq<Match>, k: nat)
    requires DistinctUsers(ms) && k <= |ms| && job.wave == High
    requires forall i :: 0 <= i < |ms| ==> InWave(job, ms[i]) && owner(ms[i].device) == ms[i].user
    requires AfterEmails(owner, before, job, start, ms, 0, start)
    ensures AfterEmails(owner, before, job, start, ms, k, Run(owner, start, EmailEvents(job, ms)[..k]))
  {
    var emails := EmailEvents(job, ms);
    if k == 0 {
      assert emails[..0] == [];
    } else {
      EmailsPhase(owner, before, job, start, ms, k - 1);
      NextEmail(owner, start, job, ms, k - 1);
      OneMoreEmail(owner, before, job, start, ms, k - 1, Run(owner, start, emails[..k - 1]));
    }
  }

  lemma NextEmail(owner: Owner, start: Db, job: Job, ms: seq<Match>, k: nat)
    requires k < |ms| && owner(ms[k].device) == ms[k].user
    ensures var emails, m := EmailEvents(job, ms), ms[k];
      Run(owner, start, emails[..k + 1])
        == ApplyEmail(owner, Run(owner, start, emails[..k]), job.alert, m.user, m.device, job.email(m.user), job.recorded(m.user))
  {
    RunNext(owner, start, EmailEvents(job, ms), k);
  }

  lemma AllStayMailed(owner: Owner, before: Db, job: Job, mid: Db, after: Db, ms: seq<Match>, n: nat)
    requires n <= |ms| && mid.rows <= after.rows && mid.mails <= after.mails && before.mails <= mid.mails
    requires forall i :: 0 <= i < n ==> MailedBy(owner, before, job, mid, ms[i])
    ensures forall i :: 0 <= i < n ==> MailedBy(owner, before, job, after, ms[i])
  {
    forall i | 0 <= i < n ensures MailedBy(owner, before, job, after, ms[i]) {
      MailedStays(owner, before, job, mid, after, ms[i]);
    }
  }

  lemma MailedStays(owner: Owner, before: Db, job: Job, mid: Db, after: Db, m: Match)
    requires MailedBy(owner, before, job, mid, m) && mid.rows <= after.rows && mid.mails <= after.mails
    requires before.mails <= mid.mails
    ensures MailedBy(owner, before, job, after, m)
  {
    if Emails(owner, before, job, m.user) {
      if job.recorded(m.user) {
        NewStays(before, mid, after, EmailRecord(before, job, m));
      }
      if job.email(m.user) == Accepted {
        var j :| |before.mails| <= j < |mid.mails| && mid.mails[j] == Mail(job.alert, m.user);
        assert after.mails[j] == Mail(job.alert, m.user);
      }
    }
  }

  // --- the whole job --------------------------------------------------------------------------

  /** The matches that take turns are one for each user of the wave. */
  lemma UsersOfWave(job: Job)
    ensures DistinctUsers(UserMatches(job))
    ensures forall m :: m in DeviceMatches(job) <==> InWave(job, m)
    ensures forall i :: 0 <= i < |UserMatches(job)| ==> InWave(job, UserMatches(job)[i])
    ensures forall m :: InWave(job, m) ==> exists i :: 0 <= i < |UserMatches(job)| && UserMatches(job)[i].user == m.user
  {
    var all, ms := DeviceMatches(job), UserMatches(job);
    KeepBestIsBest(all, UserOf, Never);
    forall i, j | 0 <= i < j < |ms| ensures ms[i].user != ms[j].user { assert UserOf(ms[i]) != UserOf(ms[j]); }
    forall i | 0 <= i < |ms| ensures InWave(job, ms[i]) { UserMatchesAreMatches(job, i); }
    forall m | InWave(job, m) ensures exists i :: 0 <= i < |ms| && ms[i].user == m.user {
      var k :| 0 <= k < |all| && all[k] == m;
      assert HasKey(ms, UserOf, UserOf(all[k]));
      var i :| 0 <= i < |ms| && UserOf(ms[i]) == m.user;
      assert ms[i].user == m.user;
    }
  }

  /** The state of a job after its pushes. */
  ghost function Pushed(owner: Owner, before: Db, job: Job): Db {
    Run(owner, Run(owner, before, TokenlessEvents(job, DeviceMatches(job))), TurnEvents(job, UserMatches(job)))
  }

  lemma OwnTurns(owner: Owner, job: Job)
    requires Consistent(owner, job)
    ensures var ms := UserMatches(job);
      forall i :: 0 <= i < |ms| ==> ValidTurn(owner, TurnFor(job, ms[i])) && owner(ms[i].device) == ms[i].user
  {
    var ms := UserMatches(job);
    forall i | 0 <= i < |ms| ensures ValidTurn(owner, TurnFor(job, ms[i])) && owner(ms[i].device) == ms[i].user {
      TurnsAreValid(owner, job, i);
    }
  }

  lemma TurnsMayStart(owner: Owner, before: Db, job: Job, excluded: Db, ms: seq<Match>)
    requires OnlyExclusions(before, excluded) && OnlyOutcomes(owner, before, job, excluded)
    ensures BeforeTurn(owner, before, job, ms, 0, excluded)
  {
  }

  lemma TurnsDone(owner: Owner, before: Db, job: Job, excluded: Db)
    requires Consistent(owner, job) && BeforeTurn(owner, before, job, UserMatches(job), 0, excluded)
    ensures var ms := UserMatches(job);
      var pushed := Run(owner, excluded, TurnEvents(job, ms));
      && BeforeTurn(owner, before, job, ms, |ms|, pushed) && excluded.rows <= pushed.rows
      && (forall i :: 0 <= i < |ms| ==> UserServedBy(owner, before, job, pushed, ms[i]))
  {
    var ms := UserMatches(job);
    UsersOfWave(job);
    OwnTurns(owner, job);
    NoTurnYet(owner, before, job, excluded, ms);
    TurnsPhase(owner, before, job, excluded, ms, |ms|);
    assert TurnEvents(job, ms)[..|ms|] == TurnEvents(job, ms);
  }

  lemma TokenlessDone(owner: Owner, before: Db, job: Job)
    ensures var excluded := Run(owner, before, TokenlessEvents(job, DeviceMatches(job)));
      && BeforeTurn(owner, before, job, UserMatches(job), 0, excluded)
      && (forall m :: InWave(job, m) && !Tokenful(m) ==>
            HasNew(before, excluded, Written(job.alert, m.device, Some(PushTokenMissing), before.now)))
  {
    var all := DeviceMatches(job);
    UsersOfWave(job);
    TokenlessPhase(owner, before, job, all);
    TurnsMayStart(owner, before, job, Run(owner, before, TokenlessEvents(job, all)), UserMatches(job));
  }

  lemma PushesDone(owner: Owner, before: Db, job: Job)
    requires Consistent(owner, job)
    ensures var ms, pushed := UserMatches(job), Pushed(owner, before, job);
      && BeforeTurn(owner, before, job, ms, |ms|, pushed)
      && (forall i :: 0 <= i < |ms| ==> UserServedBy(owner, before, job, pushed, ms[i]))
      && (forall m :: InWave(job, m) && !Tokenful(m) ==>
            HasNew(before, pushed, Written(job.alert, m.device, Some(PushTokenMissing), before.now)))
  {
    var excluded := Run(owner, before, TokenlessEvents(job, DeviceMatches(job)));
    TokenlessDone(owner, before, job);
    TurnsDone(owner, before, job, excluded);
    forall m | InWave(job, m) && !Tokenful(m)
      ensures HasNew(before, Pushed(owner, before, job), Written(job.alert, m.device, Some(PushTokenMissing), before.now))
    {
      NewStays(before, excluded, Pushed(owner, before, job), Written(job.alert, m.device, Some(PushTokenMissing), before.now));
    }
  }

  lemma EmailsDone(owner: Owner, before: Db, job: Job)
    requires Consistent(owner, job)
    ensures var ms, after := UserMatches(job), Run(owner, before, JobEvents(job));
      && OnlyOutcomes(owner, before, job, after) && Pushed(owner, before, job).rows <= after.rows
      && (forall i :: 0 <= i < |ms| ==> MailedBy(owner, before, job, after, ms[i]))
  {
    var ms, pushed := UserMatches(job), Pushed(owner, before, job);
    PushesDone(owner, before, job);
    JobInParts(owner, before, job);
    UsersOfWave(job);
    OwnTurns(owner, job);
    if job.wave == High {
      NoEmailYet(owner, before, job, pushed, ms);
      EmailsPhase(owner, before, job, pushed, ms, |ms|);
      assert EmailEvents(job, ms)[..|ms|] == EmailEvents(job, ms);
    }
  }

  /**
   * A complete job leaves exactly this, whatever the table held: the verdict on each user is
   * the one the rows before the job give, and nothing else is new.
   */
  lemma CompletedWaveLeaves(owner: Owner, before: Db, job: Job)
    requires Consistent(owner, job)
    ensures WaveLeaves(owner, before, job, Run(owner, before, JobEvents(job)))
  {
    var ms, after := UserMatches(job), Run(owner, before, JobEvents(job));
    var pushed := Pushed(owner, before, job);
    PushesDone(owner, before, job);
    EmailsDone(owner, before, job);
    UsersOfWave(job);
    forall m | InWave(job, m)
      ensures UserServed(owner, before, job, after, m.user) && UserMailed(owner, before, job, after, m.user)
    {
      var i :| 0 <= i < |ms| && ms[i].user == m.user;
      ServedStays(owner, before, job, pushed, after, ms[i]);
      if !CanReach(job, m.user) && !Tokenful(ms[i]) {
        NewStays(before, pushed, after, Written(job.alert, ms[i].device, Some(PushTokenMissing), before.now));
      }
    }
    forall m | InWave(job, m) && !Tokenful(m)
      ensures HasNew(before, after, Written(job.alert, m.device, Some(PushTokenMissing), before.now))
    {
      NewStays(before, pushed, after, Written(job.alert, m.device, Some(PushTokenMissing), before.now));
    }
  }

  /** At night a MEDIUM or LOW wave pushes to nobody; a HIGH wave, and any wave by day, excludes nobody for the hour. */
  lemma QuietHoursExactly(owner: Owner, before: Db, job: Job, after: Db)
    requires WaveLeaves(owner, before, job, after)
    ensures job.wave != High && (22 <= job.hour || job.hour < 7) ==>
      && after.jobs == before.jobs
      && forall i :: |before.rows| <= i < |after.rows| && after.rows[i].channel == Push ==>
           after.rows[i].excluded == Some(QuietHours) || after.rows[i].excluded == Some(PushTokenMissing)
    ensures job.wave == High || 7 <= job.hour < 22 ==>
      forall i :: |before.rows| <= i < |after.rows| ==> after.rows[i].excluded != Some(QuietHours)
  {
    if job.wave != High && (22 <= job.hour || job.hour < 7) { NightQueuesNothing(owner, before, job, after); }
  }

  lemma NewRowAtNight(owner: Owner, before: Db, job: Job, row: Row)
    requires IsDeviceRow(owner, before, job, row) || IsMissingToken(before, job, row) || IsEmailRow(owner, before, job, row)
    requires job.wave != High && (22 <= job.hour || job.hour < 7)
    ensures !Queues(row)
  {
  }

  lemma NewJobHasNewRow(owner: Owner, before: Db, job: Job, after: Db) returns (i: nat)
    requires OnlyOutcomes(owner, before, job, after) && |before.jobs| < |after.jobs|
    ensures |before.rows| <= i < |after.rows| && Queues(after.rows[i])
  {
    i := after.jobs[|before.jobs|];
  }

  lemma NightQueuesNothing(owner: Owner, before: Db, job: Job, after: Db)
    requires WaveLeaves(owner, before, job, after) && job.wave != High && (22 <= job.hour || job.hour < 7)
    ensures after.jobs == before.jobs
  {
    if |before.jobs| < |after.jobs| {
      var i := NewJobHasNewRow(owner, before, job, after);
      NewRowAtNight(owner, before, job, after.rows[i]);
    }
  }
}
