/**
 * The steps of one whole wave job, `processAlertNotifications`
 * (src/notification/notification-queue.processor.ts), as events of `Waves`.
 */
module WaveSteps {
  import opened Common
  import opened Matching
  import opened Waves

  /** Everything a job reads besides the notification table. */
  datatype Job = Job(
    alert: int, wave: Confidence, hour: int, creator: int, matches: seq<Match>, reachable: seq<Device>,
    email: int -> EmailResult, recorded: int -> bool)

  function Targets(devices: seq<Device>, user: int): seq<int> {
    if devices == [] then []
    else
      Targets(devices[..|devices| - 1], user)
      + (if devices[|devices| - 1].user == user then [devices[|devices| - 1].id] else [])
  }

  function DeviceMatches(job: Job): seq<Match> {
    WaveMatches(job.matches, job.wave, job.creator)
  }

  /** The first match of each user. */
  function UserMatches(job: Job): seq<Match> {
    KeepBest(DeviceMatches(job), UserOf, Never)
  }

  ghost predicate DistinctUsers(ms: seq<Match>) {
    forall i, j :: 0 <= i < j < |ms| ==> ms[i].user != ms[j].user
  }

  function TurnFor(job: Job, m: Match): Turn {
    Turn(job.alert, job.wave, IsQuietHour(job.hour), m.user, m.device, HasToken(m), Targets(job.reachable, m.user))
  }

  function TokenlessEvents(job: Job, ms: seq<Match>): seq<Event> {
    if ms == [] then []
    else TokenlessEvents(job, ms[..|ms| - 1])
         + (if HasToken(ms[|ms| - 1]) then [] else [TokenlessMatch(job.alert, ms[|ms| - 1].device)])
  }

  function TurnEvents(job: Job, ms: seq<Match>): (r: seq<Event>)
    ensures |r| == |ms|
    ensures forall i :: 0 <= i < |ms| ==> r[i] == UserTurn(TurnFor(job, ms[i]), |TurnDevices(TurnFor(job, ms[i]))|, true)
  {
    seq(|ms|, i requires 0 <= i < |ms| => UserTurn(TurnFor(job, ms[i]), |TurnDevices(TurnFor(job, ms[i]))|, true))
  }

  function EmailEvents(job: Job, ms: seq<Match>): (r: seq<Event>)
    ensures |r| == |ms|
    ensures forall i :: 0 <= i < |ms| ==>
      r[i] == EmailTurn(job.alert, ms[i].user, ms[i].device, job.email(ms[i].user), job.recorded(ms[i].user))
  {
    seq(|ms|, i requires 0 <= i < |ms| =>
      EmailTurn(job.alert, ms[i].user, ms[i].device, job.email(ms[i].user), job.recorded(ms[i].user)))
  }

  /** The steps of a complete job, in order; only the HIGH wave sends emails. */
  function JobEvents(job: Job): seq<Event> {
    TokenlessEvents(job, DeviceMatches(job))
    + TurnEvents(job, UserMatches(job))
    + (if job.wave == High then EmailEvents(job, UserMatches(job)) else [])
  }

  /** Foreign keys: every device the job sees belongs to the user it is listed under. */
  ghost predicate Consistent(owner: Owner, job: Job) {
    && (forall i :: 0 <= i < |job.matches| ==> owner(job.matches[i].device) == job.matches[i].user)
    && (forall i :: 0 <= i < |job.reachable| ==> owner(job.reachable[i].id) == job.reachable[i].user)
    && (forall i, j :: 0 <= i < j < |job.reachable| ==> job.reachable[i].id != job.reachable[j].id)
  }

  // --- steps ------------------------------------------------------------------------

  lemma {:induction false} RunConcat(owner: Owner, db: Db, a: seq<Event>, b: seq<Event>)
    ensures Run(owner, db, a + b) == Run(owner, Run(owner, db, a), b)
    decreases |a|
  {
    if a == [] {
      assert a + b == b;
    } else {
      assert (a + b)[1..] == a[1..] + b;
      RunConcat(owner, Step(owner, db, a[0]), a[1..], b);
    }
  }

  lemma RunOne(owner: Owner, db: Db, e: Event)
    ensures Run(owner, db, [e]) == Step(owner, db, e)
  {
    assert [e][1..] == [];
    assert Run(owner, Step(owner, db, e), []) == Step(owner, db, e);
  }

  lemma RunNext(owner: Owner, db: Db, events: seq<Event>, k: nat)
    requires k < |events|
    ensures Run(owner, db, events[..k + 1]) == Step(owner, Run(owner, db, events[..k]), events[k])
  {
    assert events[..k + 1] == events[..k] + [events[k]];
    RunConcat(owner, db, events[..k], [events[k]]);
    RunOne(owner, Run(owner, db, events[..k]), events[k]);
  }

  lemma {:induction false} TargetsAreTheUsers(devices: seq<Device>, user: int)
    ensures forall d :: d in Targets(devices, user) <==> Device(d, user) in devices
  {
    if devices != [] {
      var n := |devices| - 1;
      TargetsAreTheUsers(devices[..n], user);
      assert forall x :: x in devices <==> x in devices[..n] || x == devices[n];
    }
  }

  lemma {:induction false} TargetsAreDistinct(devices: seq<Device>, user: int)
    requires forall i, j :: 0 <= i < j < |devices| ==> devices[i].id != devices[j].id
    ensures forall i, j :: 0 <= i < j < |Targets(devices, user)| ==> Targets(devices, user)[i] != Targets(devices, user)[j]
  {
    if devices != [] {
      var n := |devices| - 1;
      TargetsAreDistinct(devices[..n], user);
      TargetsAreTheUsers(devices[..n], user);
      var rest := Targets(devices[..n], user);
      forall i | 0 <= i < |rest| ensures rest[i] != devices[n].id {
        assert rest[i] in rest;
        var k :| 0 <= k < |devices[..n]| && devices[..n][k] == Device(rest[i], user);
      }
    }
  }

  lemma UserMatchesAreMatches(job: Job, i: nat)
    requires i < |UserMatches(job)|
    ensures UserMatches(job)[i] in DeviceMatches(job) && UserMatches(job)[i] in job.matches
  {
    KeepBestIsBest(DeviceMatches(job), UserOf, Never);
    assert Chosen(DeviceMatches(job), UserOf, Never, UserMatches(job)[i]);
  }

  lemma TurnsAreValid(owner: Owner, job: Job, i: nat)
    requires Consistent(owner, job) && i < |UserMatches(job)|
    ensures ValidTurn(owner, TurnFor(job, UserMatches(job)[i]))
    ensures owner(UserMatches(job)[i].device) == UserMatches(job)[i].user
  {
    var m := UserMatches(job)[i];
    UserMatchesAreMatches(job, i);
    var k :| 0 <= k < |job.matches| && job.matches[k] == m;
    TargetsAreTheUsers(job.reachable, m.user);
    TargetsAreDistinct(job.reachable, m.user);
    var t := TurnFor(job, m);
    forall j | 0 <= j < |t.targets| ensures owner(t.targets[j]) == m.user {
      assert t.targets[j] in t.targets;
      var d :| 0 <= d < |job.reachable| && job.reachable[d] == Device(t.targets[j], m.user);
    }
  }

  lemma EmailKeepsOne(owner: Owner, db: Db, alert: int, user: int, device: int, result: EmailResult, a: int, u: int)
    requires owner(device) == user && MailedOnce(db, owner, a, u)
    ensures MailedOnce(ApplyEmail(owner, db, alert, user, device, result, true), owner, a, u)
  {
    StepKeepsMailedOnce(owner, db, EmailTurn(alert, user, device, result, true), a, u);
    assert Step(owner, db, EmailTurn(alert, user, device, result, true)) == ApplyEmail(owner, db, alert, user, device, result, true);
  }

  lemma EmailKeepsMailedOnce(owner: Owner, db: Db, alert: int, user: int, device: int, result: EmailResult)
    requires owner(device) == user
    ensures forall a: int, u: int ::
      MailedOnce(db, owner, a, u) ==> MailedOnce(ApplyEmail(owner, db, alert, user, device, result, true), owner, a, u)
  {
    forall a: int, u: int | MailedOnce(db, owner, a, u)
      ensures MailedOnce(ApplyEmail(owner, db, alert, user, device, result, true), owner, a, u)
    {
      EmailKeepsOne(owner, db, alert, user, device, result, a, u);
    }
  }

  lemma JobInParts(owner: Owner, db: Db, job: Job)
    ensures var s1 := Run(owner, db, TokenlessEvents(job, DeviceMatches(job)));
            var s2 := Run(owner, s1, TurnEvents(job, UserMatches(job)));
            Run(owner, db, JobEvents(job))
              == if job.wave == High then Run(owner, s2, EmailEvents(job, UserMatches(job))) else s2
  {
    var a, b := TokenlessEvents(job, DeviceMatches(job)), TurnEvents(job, UserMatches(job));
    var c := if job.wave == High then EmailEvents(job, UserMatches(job)) else [];
    RunConcat(owner, db, a, b);
    RunConcat(owner, db, a + b, c);
  }
}
