/** A completed wave accounts for every device it meets, and queues one job per push row. */
module WaveAccounting {
  import opened Common
  import opened Matching
  import opened Waves
  import opened WaveSteps

  // --- every device is accounted for ------------------------------------------------------

  /** The devices of push rows, in order. */
  function PushDevices(rows: seq<Row>): seq<int> {
    if rows == [] then []
    else PushDevices(rows[..|rows| - 1]) + (if rows[|rows| - 1].channel == Push then [rows[|rows| - 1].device] else [])
  }

  /** The devices a complete event records as push rows. */
  function DevicesOf(e: Event): seq<int> {
    match e
    case TokenlessMatch(_, device) => [device]
    case UserTurn(t, _, _) => TurnDevices(t)
    case _ => []
  }

  function EventDevices(events: seq<Event>): seq<int> {
    if events == [] then [] else DevicesOf(events[0]) + EventDevices(events[1..])
  }

  lemma EventDevicesOne(e: Event)
    ensures EventDevices([e]) == DevicesOf(e)
  {
    assert [e][1..] == [];
    assert DevicesOf(e) + [] == DevicesOf(e);
  }

  /** The events of a complete job, as they really occur. */
  ghost predicate Complete(owner: Owner, e: Event) {
    || e.TokenlessMatch?
    || (e.UserTurn? && ValidTurn(owner, e.turn) && e.inserted == |TurnDevices(e.turn)| && e.lastQueued)
    || (e.EmailTurn? && owner(e.device) == e.user)
  }

  lemma {:induction false} PushDevicesConcat(a: seq<Row>, b: seq<Row>)
    ensures PushDevices(a + b) == PushDevices(a) + PushDevices(b)
  {
    if b == [] {
      assert a + b == a;
    } else {
      assert (a + b)[..|a + b| - 1] == a + b[..|b| - 1];
      PushDevicesConcat(a, b[..|b| - 1]);
    }
  }

  lemma {:induction false} PushDevicesOfPushes(rows: seq<Row>, devices: seq<int>)
    requires |rows| == |devices|
    requires forall i :: 0 <= i < |rows| ==> rows[i].channel == Push && rows[i].device == devices[i]
    ensures PushDevices(rows) == devices
  {
    if rows != [] {
      var n := |rows| - 1;
      PushDevicesOfPushes(rows[..n], devices[..n]);
      assert devices == devices[..n] + [devices[n]];
    }
  }

  /** The rows a complete event inserts. */
  function NewRows(owner: Owner, db: Db, e: Event): seq<Row> {
    match e
    case TokenlessMatch(alert, device) => [Exclusion(alert, db.now, device, PushTokenMissing)]
    case UserTurn(t, _, _) => TurnRows(owner, db, t, |TurnDevices(t)|)
    case EmailTurn(alert, user, device, result, recorded) =>
      if HasBeenNotified(db.rows, owner, alert, user, Email) || result == NotAttempted || !recorded then []
      else [EmailRow(alert, db.now, device, result == Accepted)]
    case _ => []
  }

  lemma StepInserts(owner: Owner, db: Db, e: Event)
    requires Complete(owner, e)
    ensures Step(owner, db, e).rows == db.rows + NewRows(owner, db, e)
  {
  }

  lemma NewRowsDevices(owner: Owner, db: Db, e: Event)
    requires Complete(owner, e)
    ensures PushDevices(NewRows(owner, db, e)) == DevicesOf(e)
  {
    var rows := NewRows(owner, db, e);
    if e.EmailTurn? {
      if rows != [] { assert rows[..0] == []; }
    } else {
      PushDevicesOfPushes(rows, DevicesOf(e));
    }
  }

  /** Whatever a turn decides, it records each of its devices once. */
  lemma StepDevices(owner: Owner, db: Db, e: Event)
    requires Complete(owner, e)
    ensures PushDevices(Step(owner, db, e).rows) == PushDevices(db.rows) + DevicesOf(e)
    ensures db.rows <= Step(owner, db, e).rows
  {
    StepInserts(owner, db, e);
    NewRowsDevices(owner, db, e);
    PushDevicesConcat(db.rows, NewRows(owner, db, e));
  }

  lemma {:induction false} RunDevices(owner: Owner, db: Db, events: seq<Event>)
    requires forall i :: 0 <= i < |events| ==> Complete(owner, events[i])
    ensures PushDevices(Run(owner, db, events).rows) == PushDevices(db.rows) + EventDevices(events)
    ensures db.rows <= Run(owner, db, events).rows
    decreases |events|
  {
    if events != [] {
      var next := Step(owner, db, events[0]);
      StepDevices(owner, db, events[0]);
      RunDevices(owner, next, events[1..]);
      Regroup(PushDevices(db.rows), DevicesOf(events[0]), EventDevices(events[1..]));
    }
  }

  lemma {:induction false} EventDevicesConcat(a: seq<Event>, b: seq<Event>)
    ensures EventDevices(a + b) == EventDevices(a) + EventDevices(b)
  {
    if a == [] {
      assert a + b == b;
    } else {
      assert (a + b)[1..] == a[1..] + b;
      EventDevicesConcat(a[1..], b);
    }
  }

  /** How often one match accounts for a device: as a token-less match, and in its user's turn. */
  function Tokenless(m: Match, d: int): nat {
    if !HasToken(m) && m.device == d then 1 else 0
  }

  ghost predicate OwnDevices(owner: Owner, ms: seq<Match>) {
    forall i :: 0 <= i < |ms| ==> owner(ms[i].device) == ms[i].user
  }

  lemma TokenlessLast(job: Job, ms: seq<Match>, d: int)
    requires ms != []
    ensures var n := |ms| - 1;
      Times(EventDevices(TokenlessEvents(job, ms)), d)
        == Times(EventDevices(TokenlessEvents(job, ms[..n])), d) + Tokenless(ms[n], d)
  {
    var n := |ms| - 1;
    var before := TokenlessEvents(job, ms[..n]);
    if HasToken(ms[n]) {
      assert TokenlessEvents(job, ms) == before;
    } else {
      var e := TokenlessMatch(job.alert, ms[n].device);
      assert TokenlessEvents(job, ms) == before + [e];
      EventDevicesConcat(before, [e]);
      EventDevicesOne(e);
      TimesConcat(EventDevices(before), [ms[n].device], d);
      TimesOne(ms[n].device, d);
    }
  }

  /** Only the match of the device's owner accounts for it among token-less matches. */
  lemma {:induction false} TokenlessTimes(owner: Owner, job: Job, ms: seq<Match>, k: nat, d: int)
    requires DistinctUsers(ms) && OwnDevices(owner, ms) && k < |ms| && owner(d) == ms[k].user
    ensures Times(EventDevices(TokenlessEvents(job, ms)), d) == Tokenless(ms[k], d)
    decreases |ms|
  {
    var n := |ms| - 1;
    TokenlessLast(job, ms, d);
    if k < n {
      assert ms[k].user != ms[n].user && owner(ms[n].device) == ms[n].user;
      assert Tokenless(ms[n], d) == 0;
      TokenlessTimes(owner, job, ms[..n], k, d);
    } else {
      TokenlessAbsent(owner, job, ms[..n], d);
    }
  }

  lemma {:induction false} TokenlessAbsent(owner: Owner, job: Job, ms: seq<Match>, d: int)
    requires OwnDevices(owner, ms) && forall i :: 0 <= i < |ms| ==> ms[i].user != owner(d)
    ensures Times(EventDevices(TokenlessEvents(job, ms)), d) == 0
  {
    if ms != [] {
      TokenlessLast(job, ms, d);
      TokenlessAbsent(owner, job, ms[..|ms| - 1], d);
    }
  }

  lemma {:induction false} EmailsHaveNoPush(job: Job, ms: seq<Match>)
    ensures EventDevices(EmailEvents(job, ms)) == []
  {
    if ms != [] {
      EmailsHaveNoPush(job, ms[1..]);
      assert EmailEvents(job, ms)[1..] == EmailEvents(job, ms[1..]);
    }
  }

  ghost predicate ValidTurns(owner: Owner, job: Job, ms: seq<Match>) {
    forall i :: 0 <= i < |ms| ==> ValidTurn(owner, TurnFor(job, ms[i]))
  }

  lemma TurnTimesElsewhere(owner: Owner, t: Turn, d: int)
    requires ValidTurn(owner, t)
    ensures Times(TurnDevices(t), d) == if d in TurnDevices(t) then 1 else 0
    ensures owner(d) != t.user ==> d !in TurnDevices(t)
  {
    TimesNoRepeats(TurnDevices(t), d);
  }

  lemma TurnEventsTail(job: Job, ms: seq<Match>)
    requires ms != []
    ensures EventDevices(TurnEvents(job, ms)) == TurnDevices(TurnFor(job, ms[0])) + EventDevices(TurnEvents(job, ms[1..]))
  {
    assert TurnEvents(job, ms)[1..] == TurnEvents(job, ms[1..]);
  }

  lemma {:induction false} TurnTimesNone(owner: Owner, job: Job, ms: seq<Match>, d: int)
    requires ValidTurns(owner, job, ms) && forall i :: 0 <= i < |ms| ==> ms[i].user != owner(d)
    ensures Times(EventDevices(TurnEvents(job, ms)), d) == 0
  {
    if ms != [] {
      var t := TurnFor(job, ms[0]);
      TurnTimesNone(owner, job, ms[1..], d);
      TurnEventsTail(job, ms);
      TimesConcat(TurnDevices(t), EventDevices(TurnEvents(job, ms[1..])), d);
      TurnTimesElsewhere(owner, t, d);
    }
  }

  lemma RestOfUsers(owner: Owner, job: Job, ms: seq<Match>)
    requires DistinctUsers(ms) && ValidTurns(owner, job, ms) && ms != []
    ensures DistinctUsers(ms[1..]) && ValidTurns(owner, job, ms[1..])
    ensures forall i :: 0 <= i < |ms[1..]| ==> ms[1..][i].user != ms[0].user
  {
  }

  lemma TurnTimesTail(owner: Owner, job: Job, ms: seq<Match>, d: int)
    requires ms != [] && ValidTurn(owner, TurnFor(job, ms[0]))
    ensures Times(EventDevices(TurnEvents(job, ms)), d)
         == (if d in TurnDevices(TurnFor(job, ms[0])) then 1 else 0) + Times(EventDevices(TurnEvents(job, ms[1..])), d)
  {
    TurnEventsTail(job, ms);
    TimesConcat(TurnDevices(TurnFor(job, ms[0])), EventDevices(TurnEvents(job, ms[1..])), d);
    TurnTimesElsewhere(owner, TurnFor(job, ms[0]), d);
  }

  /** Only the turn of the device's owner accounts for it among the turns. */
  lemma {:induction false} TurnTimes(owner: Owner, job: Job, ms: seq<Match>, k: nat, d: int)
    requires DistinctUsers(ms) && ValidTurns(owner, job, ms) && k < |ms| && ms[k].user == owner(d)
    ensures Times(EventDevices(TurnEvents(job, ms)), d) == if d in TurnDevices(TurnFor(job, ms[k])) then 1 else 0
    decreases |ms|
  {
    TurnTimesTail(owner, job, ms, d);
    RestOfUsers(owner, job, ms);
    if k == 0 {
      TurnTimesNone(owner, job, ms[1..], d);
    } else {
      TurnTimes(owner, job, ms[1..], k - 1, d);
      TurnTimesElsewhere(owner, TurnFor(job, ms[0]), d);
    }
  }

  ghost predicate AllComplete(owner: Owner, events: seq<Event>) {
    forall i :: 0 <= i < |events| ==> Complete(owner, events[i])
  }

  lemma TurnsComplete(owner: Owner, job: Job)
    requires Consistent(owner, job)
    ensures AllComplete(owner, TurnEvents(job, UserMatches(job)))
    ensures AllComplete(owner, EmailEvents(job, UserMatches(job)))
  {
    var ms := UserMatches(job);
    forall i | 0 <= i < |ms| ensures ValidTurn(owner, TurnFor(job, ms[i])) && owner(ms[i].device) == ms[i].user {
      TurnsAreValid(owner, job, i);
    }
  }

  lemma JobEventsComplete(owner: Owner, job: Job)
    requires Consistent(owner, job)
    ensures AllComplete(owner, JobEvents(job))
  {
    TokenlessAreTokenless(job, DeviceMatches(job));
    TurnsComplete(owner, job);
  }

  lemma {:induction false} TokenlessAreTokenless(job: Job, ms: seq<Match>)
    ensures forall i :: 0 <= i < |TokenlessEvents(job, ms)| ==> TokenlessEvents(job, ms)[i].TokenlessMatch?
  {
    if ms != [] { TokenlessAreTokenless(job, ms[..|ms| - 1]); }
  }

  /** With one match per user, every match of the wave takes its turn. */
  lemma {:induction false} FirstMatchIsOnlyMatch(ms: seq<Match>)
    requires DistinctUsers(ms)
    ensures KeepBest(ms, UserOf, Never) == ms
  {
    if ms != [] {
      var n := |ms| - 1;
      FirstMatchIsOnlyMatch(ms[..n]);
      var i := IndexOfKey(ms[..n], UserOf, UserOf(ms[n]));
      assert forall j :: 0 <= j < n ==> UserOf(ms[j]) != UserOf(ms[n]);
      assert ms == ms[..n] + [ms[n]];
    }
  }

  lemma {:induction false} WaveKeepsUsersDistinct(ms: seq<Match>, wave: Confidence, creator: int)
    requires DistinctUsers(ms)
    ensures DistinctUsers(WaveMatches(ms, wave, creator))
  {
    if ms != [] {
      WaveKeepsUsersDistinct(ms[1..], wave, creator);
      var rest := WaveMatches(ms[1..], wave, creator);
      forall j | 0 <= j < |rest| ensures rest[j].user != ms[0].user {
        assert rest[j] in rest;
        var k :| 0 <= k < |ms[1..]| && ms[1..][k] == rest[j];
      }
    }
  }

  /** What matching returns has one match per user. */
  lemma MatchingGivesDistinctUsers(matches: seq<Match>)
    ensures DistinctUsers(Deduplicate(matches))
  {
    var result := Deduplicate(matches);
    forall i, j | 0 <= i < j < |result| ensures result[i].user != result[j].user {
      if result[i].user == result[j].user { OneMatchPerUser(matches, i, j); }
    }
  }

  /** The devices a complete job records: token-less matches first, then each user's turn. */
  lemma JobDevices(job: Job)
    requires DistinctUsers(job.matches)
    ensures UserMatches(job) == DeviceMatches(job)
    ensures EventDevices(JobEvents(job))
         == EventDevices(TokenlessEvents(job, DeviceMatches(job))) + EventDevices(TurnEvents(job, DeviceMatches(job)))
  {
    var ms := DeviceMatches(job);
    WaveKeepsUsersDistinct(job.matches, job.wave, job.creator);
    FirstMatchIsOnlyMatch(ms);
    var a, b := TokenlessEvents(job, ms), TurnEvents(job, ms);
    var c := if job.wave == High then EmailEvents(job, ms) else [];
    EventDevicesConcat(a, b);
    EventDevicesConcat(a + b, c);
    EmailsHaveNoPush(job, ms);
    assert EventDevices(c) == [];
  }

  lemma MatchesAreOwn(owner: Owner, job: Job)
    requires Consistent(owner, job) && DistinctUsers(job.matches)
    ensures DistinctUsers(DeviceMatches(job))
    ensures OwnDevices(owner, DeviceMatches(job)) && ValidTurns(owner, job, DeviceMatches(job))
  {
    JobDevices(job);
    WaveKeepsUsersDistinct(job.matches, job.wave, job.creator);
    var ms := DeviceMatches(job);
    forall i | 0 <= i < |ms| ensures ValidTurn(owner, TurnFor(job, ms[i])) && owner(ms[i].device) == ms[i].user {
      TurnsAreValid(owner, job, i);
    }
  }

  /** The rows a run has added. */
  function Added(before: seq<Row>, after: seq<Row>): seq<Row> {
    if |before| <= |after| then after[|before|..] else []
  }

  lemma PushDevicesAdded(before: seq<Row>, after: seq<Row>, added: seq<int>)
    requires before <= after && PushDevices(after) == PushDevices(before) + added
    ensures PushDevices(Added(before, after)) == added
  {
    assert after == before + after[|before|..];
    PushDevicesConcat(before, after[|before|..]);
    var n := |PushDevices(before)|;
    assert (PushDevices(before) + PushDevices(after[|before|..]))[n..] == PushDevices(after[|before|..]);
    assert (PushDevices(before) + added)[n..] == added;
  }

  lemma NewDevices(owner: Owner, db: Db, events: seq<Event>)
    requires AllComplete(owner, events)
    ensures db.rows <= Run(owner, db, events).rows
    ensures PushDevices(Added(db.rows, Run(owner, db, events).rows)) == EventDevices(events)
  {
    RunDevices(owner, db, events);
    PushDevicesAdded(db.rows, Run(owner, db, events).rows, EventDevices(events));
  }

  /**
   * In a completed wave, a device of a matched user gets exactly one new push row
   * for being the user's token-less match and exactly one for being among the
   * devices of the user's turn. The matches come one per user, as matching returns them.
   */
  lemma CompletedWaveAccounts(owner: Owner, db: Db, job: Job, k: nat, d: int)
    requires Consistent(owner, job) && DistinctUsers(job.matches)
    requires k < |DeviceMatches(job)| && owner(d) == DeviceMatches(job)[k].user
    ensures var m := DeviceMatches(job)[k];
      var after := Run(owner, db, JobEvents(job)).rows;
      && db.rows <= after
      && Times(PushDevices(Added(db.rows, after)), d)
           == Tokenless(m, d) + (if d in TurnDevices(TurnFor(job, m)) then 1 else 0)
  {
    var ms := DeviceMatches(job);
    JobEventsComplete(owner, job);
    NewDevices(owner, db, JobEvents(job));
    JobDevices(job);
    MatchesAreOwn(owner, job);
    TimesConcat(EventDevices(TokenlessEvents(job, ms)), EventDevices(TurnEvents(job, ms)), d);
    TokenlessTimes(owner, job, ms, k, d);
    TurnTimes(owner, job, ms, k, d);
  }

  /**
   * Read per device: a reachable device of a matched user gets exactly one new row, unless it
   * is also their token-less match and gets two; a token-less match gets exactly one unless it
   * is also reachable; and every matched user gets a row.
   */
  lemma EveryDeviceOnce(owner: Owner, db: Db, job: Job, k: nat)
    requires Consistent(owner, job) && DistinctUsers(job.matches) && k < |DeviceMatches(job)|
    ensures var m := DeviceMatches(job)[k];
      var added := PushDevices(Added(db.rows, Run(owner, db, JobEvents(job)).rows));
      && (forall d :: Device(d, m.user) in job.reachable ==> Times(added, d) == if !HasToken(m) && d == m.device then 2 else 1)
      && (!HasToken(m) ==> Times(added, m.device) == if Device(m.device, m.user) in job.reachable then 2 else 1)
      && (exists d :: owner(d) == m.user && Times(added, d) >= 1)
  {
    var m := DeviceMatches(job)[k];
    var t := TurnFor(job, m);
    JobEventsComplete(owner, job);
    NewDevices(owner, db, JobEvents(job));
    var added := PushDevices(Added(db.rows, Run(owner, db, JobEvents(job)).rows));
    MatchesAreOwn(owner, job);
    TargetsAreTheUsers(job.reachable, m.user);
    forall d | Device(d, m.user) in job.reachable
      ensures owner(d) == m.user && Times(added, d) == if !HasToken(m) && d == m.device then 2 else 1
    {
      var i :| 0 <= i < |job.reachable| && job.reachable[i] == Device(d, m.user);
      CompletedWaveAccounts(owner, db, job, k, d);
    }
    CompletedWaveAccounts(owner, db, job, k, m.device);
    if t.targets != [] {
      assert t.targets[0] in t.targets;
      assert Times(added, t.targets[0]) >= 1;
    } else {
      assert Times(added, m.device) == 1;
    }
  }

  // --- only reachable devices are pushed to -----------------------------------------------------

  predicate IsQueuedPush(row: Row) {
    row.channel == Push && row.excluded.None?
  }

  ghost predicate Reachable(owner: Owner, job: Job, device: int) {
    Device(device, owner(device)) in job.reachable
  }

  /** Queued push rows from a position on are for reachable devices. */
  ghost predicate PushesReachable(owner: Owner, job: Job, rows: seq<Row>, from: nat) {
    forall i :: from <= i < |rows| && IsQueuedPush(rows[i]) ==> Reachable(owner, job, rows[i].device)
  }

  ghost predicate TargetsReachable(owner: Owner, job: Job, e: Event) {
    e.UserTurn? ==> forall j :: 0 <= j < |e.turn.targets| ==> Reachable(owner, job, e.turn.targets[j])
  }

  lemma {:induction false} RunPushesReachable(owner: Owner, job: Job, db: Db, events: seq<Event>, from: nat)
    requires AllComplete(owner, events) && from <= |db.rows| && PushesReachable(owner, job, db.rows, from)
    requires forall i :: 0 <= i < |events| ==> TargetsReachable(owner, job, events[i])
    ensures PushesReachable(owner, job, Run(owner, db, events).rows, from)
    decreases |events|
  {
    if events != [] {
      var next := Step(owner, db, events[0]);
      StepInserts(owner, db, events[0]);
      NewPushesReachable(owner, job, db, events[0]);
      forall i | from <= i < |next.rows| && IsQueuedPush(next.rows[i]) ensures Reachable(owner, job, next.rows[i].device) {
        if i >= |db.rows| { assert next.rows[i] == NewRows(owner, db, events[0])[i - |db.rows|]; }
      }
      RunPushesReachable(owner, job, next, events[1..], from);
    }
  }

  lemma NewPushesReachable(owner: Owner, job: Job, db: Db, e: Event)
    requires Complete(owner, e) && TargetsReachable(owner, job, e)
    ensures PushesReachable(owner, job, NewRows(owner, db, e), 0)
  {
  }

  /** A turn among the events of a job is the turn of one of its user matches. */
  lemma TurnAt(job: Job, i: nat) returns (k: nat)
    requires i < |JobEvents(job)| && JobEvents(job)[i].UserTurn?
    ensures k < |UserMatches(job)| && JobEvents(job)[i].turn == TurnFor(job, UserMatches(job)[k])
  {
    var a, b := TokenlessEvents(job, DeviceMatches(job)), TurnEvents(job, UserMatches(job));
    TokenlessAreTokenless(job, DeviceMatches(job));
    k := i - |a|;
    assert JobEvents(job)[i] == (a + b)[i] == b[k];
  }

  lemma TurnTargetsReachable(owner: Owner, job: Job, k: nat)
    requires Consistent(owner, job) && k < |UserMatches(job)|
    ensures forall d :: d in TurnFor(job, UserMatches(job)[k]).targets ==> Reachable(owner, job, d)
  {
    var m := UserMatches(job)[k];
    TargetsAreTheUsers(job.reachable, m.user);
    forall d | d in Targets(job.reachable, m.user) ensures Reachable(owner, job, d) {
      var i :| 0 <= i < |job.reachable| && job.reachable[i] == Device(d, m.user);
    }
  }

  lemma JobTargetsReachable(owner: Owner, job: Job, i: nat)
    requires Consistent(owner, job) && i < |JobEvents(job)|
    ensures TargetsReachable(owner, job, JobEvents(job)[i])
  {
    if JobEvents(job)[i].UserTurn? {
      var k := TurnAt(job, i);
      TurnTargetsReachable(owner, job, k);
      var targets := JobEvents(job)[i].turn.targets;
      forall j | 0 <= j < |targets| ensures Reachable(owner, job, targets[j]) { assert targets[j] in targets; }
    }
  }

  /**
   * A completed wave queues pushes only for devices it found reachable; so the one new row of
   * a matched device without a token is an exclusion.
   */
  lemma OnlyReachableDevicesArePushed(owner: Owner, db: Db, job: Job)
    requires Consistent(owner, job)
    ensures PushesReachable(owner, job, Run(owner, db, JobEvents(job)).rows, |db.rows|)
  {
    JobEventsComplete(owner, job);
    forall i | 0 <= i < |JobEvents(job)| ensures TargetsReachable(owner, job, JobEvents(job)[i]) {
      JobTargetsReachable(owner, job, i);
    }
    RunPushesReachable(owner, job, db, JobEvents(job), |db.rows|);
  }

  // --- every push row has its job -------------------------------------------------------------

  /** Ids of the queued push rows from a position on. */
  function QueuedIds(rows: seq<Row>, from: nat): seq<nat> {
    if |rows| <= from then []
    else
      QueuedIds(rows[..|rows| - 1], from)
      + (if rows[|rows| - 1].channel == Push && rows[|rows| - 1].excluded.None? then [|rows| - 1] else [])
  }

  lemma {:induction false} QueuedIdsOfAdded(rows: seq<Row>, added: seq<Row>, from: nat, pushes: bool)
    requires from <= |rows|
    requires forall i :: 0 <= i < |added| ==> (added[i].channel == Push && added[i].excluded.None? <==> pushes)
    ensures QueuedIds(rows + added, from) == QueuedIds(rows, from) + (if pushes then Ids(|rows|, |added|) else [])
  {
    if added == [] {
      assert rows + added == rows;
      assert Ids(|rows|, 0) == [];
    } else {
      var n := |added| - 1;
      assert (rows + added)[..|rows| + n] == rows + added[..n];
      QueuedIdsOfAdded(rows, added[..n], from, pushes);
      assert Ids(|rows|, n + 1) == Ids(|rows|, n) + [|rows| + n];
    }
  }

  lemma StepQueues(owner: Owner, db: Db, e: Event, from: nat, base: seq<nat>)
    requires Complete(owner, e) && from <= |db.rows| && db.jobs == base + QueuedIds(db.rows, from)
    ensures var after := Step(owner, db, e); |db.rows| <= |after.rows| && after.jobs == base + QueuedIds(after.rows, from)
  {
    var added := NewRows(owner, db, e);
    var pushes := e.UserTurn? && Pushes(owner, db, e.turn);
    StepInserts(owner, db, e);
    StepAddsJobs(owner, db, e);
    NewRowsAreAlike(owner, db, e);
    QueuedIdsOfAdded(db.rows, added, from, pushes);
    Regroup(base, QueuedIds(db.rows, from), if pushes then Ids(|db.rows|, |added|) else []);
  }

  lemma NewRowsAreAlike(owner: Owner, db: Db, e: Event)
    requires Complete(owner, e)
    ensures var added, pushes := NewRows(owner, db, e), e.UserTurn? && Pushes(owner, db, e.turn);
      forall i :: 0 <= i < |added| ==> (added[i].channel == Push && added[i].excluded.None? <==> pushes)
  {
  }

  lemma StepAddsJobs(owner: Owner, db: Db, e: Event)
    requires Complete(owner, e)
    ensures Step(owner, db, e).jobs ==
      db.jobs + if e.UserTurn? && Pushes(owner, db, e.turn) then Ids(|db.rows|, |NewRows(owner, db, e)|) else []
  {
    if e.UserTurn? && Pushes(owner, db, e.turn) { assert |TurnDevices(e.turn)| > 0; }
  }

  /** In a completed job the push jobs added are, in order, the ids of the new queued push rows. */
  lemma {:induction false} EveryPushHasItsJob(owner: Owner, db: Db, events: seq<Event>, from: nat, base: seq<nat>)
    requires AllComplete(owner, events) && from <= |db.rows| && db.jobs == base + QueuedIds(db.rows, from)
    ensures var after := Run(owner, db, events); after.jobs == base + QueuedIds(after.rows, from)
    decreases |events|
  {
    if events != [] {
      StepQueues(owner, db, events[0], from, base);
      EveryPushHasItsJob(owner, Step(owner, db, events[0]), events[1..], from, base);
    }
  }

  lemma CompletedWaveQueues(owner: Owner, db: Db, job: Job)
    requires Consistent(owner, job)
    ensures var after := Run(owner, db, JobEvents(job)); after.jobs == db.jobs + QueuedIds(after.rows, |db.rows|)
  {
    JobEventsComplete(owner, job);
    assert QueuedIds(db.rows, |db.rows|) == [];
    EveryPushHasItsJob(owner, db, JobEvents(job), |db.rows|, db.jobs);
  }
}
