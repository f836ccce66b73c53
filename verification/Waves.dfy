/**
 * Notification fan-out (src/notification/notification-queue.processor.ts with the
 * constants of notification.constants.ts) as steps over the notification table.
 * One step handles one user of a wave and may stop at any insertion, so that a
 * run covers waves in any order, replays, retries and crashes in the target loop.
 */
module Waves {
  import opened Common
  import opened Matching

  const QUIET_HOURS_START := 22
  const QUIET_HOURS_END := 7

  function DailyCap(wave: Confidence): nat {
    match wave
    case High => 10
    case Medium => 5
    case Low => 2
  }

  /** The quiet stretch wraps midnight. */
  predicate IsQuietHour(hour: int) {
    hour >= QUIET_HOURS_START || hour < QUIET_HOURS_END
  }

  datatype Status = Queued | Sent | Delivered | Opened | Failed
  datatype Channel = Push | Email
  datatype Reason = PushTokenMissing | QuietHours | AlreadyNotified | OverDailyCap
  /** Rows inserted by a wave, and those of sightings and success stories. */
  datatype Origin = FromWave | FromElsewhere

  /** A notification row; its id is its position. Excluded rows carry their reason. */
  datatype Row = Row(
    alert: int, device: int, channel: Channel, excluded: Option<Reason>, status: Status, queuedAt: int, origin: Origin)

  /** A user pushed to by a wave. */
  datatype Batch = Batch(user: int, at: int, wave: Confidence)
  datatype Mail = Mail(alert: int, user: int)

  /**
   * `jobs` are the push jobs queued, by row id. `batches` and `mails` (emails
   * accepted by the provider) are kept for the specification.
   */
  datatype Db = Db(now: int, rows: seq<Row>, jobs: seq<nat>, batches: seq<Batch>, mails: seq<Mail>)

  /** The work of a wave for one user: the match and the user's reachable devices. */
  datatype Turn = Turn(alert: int, wave: Confidence, quiet: bool, user: int, device: int, hasToken: bool, targets: seq<int>)

  datatype EmailResult = NotAttempted | Accepted | Rejected

  datatype Event =
    | TokenlessMatch(alert: int, device: int)
    | UserTurn(turn: Turn, inserted: nat, lastQueued: bool)
    | EmailTurn(alert: int, user: int, device: int, result: EmailResult, recorded: bool)
    | StatusChange(id: nat, status: Status)
    | OtherInsert(row: Row)
    | Wait(ms: nat)

  type Owner = int -> int

  // ---------------------------------------------------------------------
  // Guards
  // ---------------------------------------------------------------------

  predicate Reaches(row: Row, owner: Owner, alert: int, user: int, channel: Channel) {
    && row.alert == alert && row.excluded.None? && row.status != Failed
    && owner(row.device) == user && row.channel == channel
  }

  predicate HasBeenNotified(rows: seq<Row>, owner: Owner, alert: int, user: int, channel: Channel) {
    exists i :: 0 <= i < |rows| && Reaches(rows[i], owner, alert, user, channel)
  }

  predicate CountsFor(row: Row, owner: Owner, user: int, since: int) {
    row.excluded.None? && row.queuedAt >= since && owner(row.device) == user
  }

  /** Non-excluded rows of a user from `since` on, whatever the alert, channel or outcome. */
  function SentSince(rows: seq<Row>, owner: Owner, user: int, since: int): nat {
    if rows == [] then 0
    else
      SentSince(rows[..|rows| - 1], owner, user, since)
      + (if CountsFor(rows[|rows| - 1], owner, user, since) then 1 else 0)
  }

  predicate IsOverDailyCap(db: Db, owner: Owner, user: int, wave: Confidence) {
    SentSince(db.rows, owner, user, db.now - DAY_MS) >= DailyCap(wave)
  }

  // ---------------------------------------------------------------------
  // Steps
  // ---------------------------------------------------------------------

  function Exclusion(alert: int, now: int, device: int, reason: Reason): Row {
    Row(alert, device, Push, Some(reason), Queued, now, FromWave)
  }

  function PushRow(alert: int, now: int, device: int): Row {
    Row(alert, device, Push, None, Queued, now, FromWave)
  }

  /** Why a user with reachable devices is not pushed to, if so. */
  function Refusal(owner: Owner, db: Db, t: Turn): Option<Reason> {
    if t.quiet && t.wave != High then Some(QuietHours)
    else if HasBeenNotified(db.rows, owner, t.alert, t.user, Push) then Some(AlreadyNotified)
    else if IsOverDailyCap(db, owner, t.user, t.wave) then Some(OverDailyCap)
    else None
  }

  /** The devices a complete turn records: the targets, or else the matched device. */
  function TurnDevices(t: Turn): seq<int> {
    if t.targets != [] then t.targets else if t.hasToken then [t.device] else []
  }

  function RowFor(owner: Owner, db: Db, t: Turn, device: int): Row {
    if t.targets == [] then Exclusion(t.alert, db.now, device, PushTokenMissing)
    else if Refusal(owner, db, t).Some? then Exclusion(t.alert, db.now, device, Refusal(owner, db, t).value)
    else PushRow(t.alert, db.now, device)
  }

  predicate Pushes(owner: Owner, db: Db, t: Turn) {
    t.targets != [] && Refusal(owner, db, t).None?
  }

  /** The rows of the first `n` devices of the turn. */
  function TurnRows(owner: Owner, db: Db, t: Turn, n: nat): (r: seq<Row>)
    requires n <= |TurnDevices(t)|
    ensures |r| == n
    ensures forall i :: 0 <= i < n ==> r[i] == RowFor(owner, db, t, TurnDevices(t)[i])
  {
    seq(n, i requires 0 <= i < n => RowFor(owner, db, t, TurnDevices(t)[i]))
  }

  function Ids(from: nat, n: nat): (r: seq<nat>)
    ensures |r| == n && forall i :: 0 <= i < n ==> r[i] == from + i
  {
    seq(n, i => from + i)
  }

  /** Rows and jobs alternate; a crash may fall between a row and its job. */
  function ApplyTurn(owner: Owner, db: Db, t: Turn, inserted: nat, lastQueued: bool): Db {
    var n := if inserted < |TurnDevices(t)| then inserted else |TurnDevices(t)|;
    var after := db.(rows := db.rows + TurnRows(owner, db, t, n));
    if !Pushes(owner, db, t) || n == 0 then after
    else after.(jobs := db.jobs + Ids(|db.rows|, if lastQueued then n else n - 1),
                batches := db.batches + [Batch(t.user, db.now, t.wave)])
  }

  function EmailRow(alert: int, now: int, device: int, sent: bool): Row {
    Row(alert, device, Email, None, if sent then Sent else Failed, now, FromWave)
  }

  function ApplyEmail(owner: Owner, db: Db, alert: int, user: int, device: int, result: EmailResult, recorded: bool): Db {
    if HasBeenNotified(db.rows, owner, alert, user, Email) || result == NotAttempted then db
    else
      db.(mails := if result == Accepted then db.mails + [Mail(alert, user)] else db.mails,
          rows := if recorded then db.rows + [EmailRow(alert, db.now, device, result == Accepted)] else db.rows)
  }

  ghost predicate ValidTurn(owner: Owner, t: Turn) {
    && owner(t.device) == t.user
    && (forall i :: 0 <= i < |t.targets| ==> owner(t.targets[i]) == t.user)
    && (forall i, j :: 0 <= i < j < |t.targets| ==> t.targets[i] != t.targets[j])
  }

  /**
   * What can occur: devices of a turn are the user's own and distinct, only push
   * rows can fail later, and other parts of the system insert no wave rows.
   */
  ghost predicate Possible(owner: Owner, db: Db, e: Event) {
    match e
    case UserTurn(t, _, _) => ValidTurn(owner, t)
    case EmailTurn(_, user, device, _, _) => owner(device) == user
    case StatusChange(id, status) => id < |db.rows| && (status == Failed ==> db.rows[id].channel == Push)
    case OtherInsert(row) => row.origin == FromElsewhere && (row.channel == Push ==> row.status == Queued)
    case _ => true
  }

  ghost function Step(owner: Owner, db: Db, e: Event): Db {
    if !Possible(owner, db, e) then db
    else
      match e
      case TokenlessMatch(alert, device) => db.(rows := db.rows + [Exclusion(alert, db.now, device, PushTokenMissing)])
      case UserTurn(t, inserted, lastQueued) => ApplyTurn(owner, db, t, inserted, lastQueued)
      case EmailTurn(alert, user, device, result, recorded) => ApplyEmail(owner, db, alert, user, device, result, recorded)
      case StatusChange(id, status) => db.(rows := db.rows[id := db.rows[id].(status := status)])
      case OtherInsert(row) => db.(rows := db.rows + [row])
      case Wait(ms) => db.(now := db.now + ms)
  }

  ghost function Run(owner: Owner, db: Db, events: seq<Event>): Db
    decreases |events|
  {
    if events == [] then db else Run(owner, Step(owner, db, events[0]), events[1..])
  }

  // ---------------------------------------------------------------------
  // Nobody is pushed to twice
  // ---------------------------------------------------------------------

  predicate IsPush(row: Row, owner: Owner, alert: int, user: int) {
    row.alert == alert && row.excluded.None? && row.channel == Push && owner(row.device) == user
  }

  predicate IsWavePush(row: Row, owner: Owner, alert: int, user: int) {
    IsPush(row, owner, alert, user) && row.origin == FromWave
  }

  /** A wave inserts a push row only while every earlier push row of that user and alert has failed. */
  lemma PushesOnlyTheUnreached(owner: Owner, db: Db, t: Turn, inserted: nat, lastQueued: bool, later: nat, earlier: nat)
    requires ValidTurn(owner, t)
    requires |db.rows| <= later < |ApplyTurn(owner, db, t, inserted, lastQueued).rows|
    requires ApplyTurn(owner, db, t, inserted, lastQueued).rows[later].excluded.None?
    requires earlier < |db.rows| && IsPush(db.rows[earlier], owner, t.alert, t.user)
    ensures db.rows[earlier].status == Failed
  {
    assert Pushes(owner, db, t);
    assert !Reaches(db.rows[earlier], owner, t.alert, t.user, Push);
  }

  /** No push row of this user and alert has failed, and no device of theirs has two wave pushes. */
  ghost predicate PushedOnce(rows: seq<Row>, owner: Owner, alert: int, user: int) {
    && (forall i :: 0 <= i < |rows| && IsPush(rows[i], owner, alert, user) ==> rows[i].status != Failed)
    && (forall i, j :: 0 <= i < j < |rows| && IsWavePush(rows[i], owner, alert, user) && IsWavePush(rows[j], owner, alert, user)
          ==> rows[i].device != rows[j].device)
  }

  /** The event reports a failed push of this user and alert. */
  predicate FailsPush(owner: Owner, db: Db, e: Event, alert: int, user: int) {
    e.StatusChange? && e.status == Failed && e.id < |db.rows| && IsPush(db.rows[e.id], owner, alert, user)
  }

  ghost predicate NeverFails(owner: Owner, db: Db, events: seq<Event>, alert: int, user: int)
    decreases |events|
  {
    events == [] ||
    (!FailsPush(owner, db, events[0], alert, user)
     && NeverFails(owner, Step(owner, db, events[0]), events[1..], alert, user))
  }

  lemma TurnKeepsPushedOnce(owner: Owner, db: Db, t: Turn, inserted: nat, lastQueued: bool, alert: int, user: int)
    requires ValidTurn(owner, t) && PushedOnce(db.rows, owner, alert, user)
    ensures PushedOnce(ApplyTurn(owner, db, t, inserted, lastQueued).rows, owner, alert, user)
  {
    var after := ApplyTurn(owner, db, t, inserted, lastQueued).rows;
    var n := |db.rows|;
    forall i, j | 0 <= i < j < |after| && IsWavePush(after[i], owner, alert, user) && IsWavePush(after[j], owner, alert, user)
      ensures after[i].device != after[j].device
    {
      if j >= n && i < n {
        assert after[j] == RowFor(owner, db, t, TurnDevices(t)[j - n]);
        PushesOnlyTheUnreached(owner, db, t, inserted, lastQueued, j, i);
      } else if i >= n {
        assert after[i] == RowFor(owner, db, t, TurnDevices(t)[i - n]);
        assert after[j] == RowFor(owner, db, t, TurnDevices(t)[j - n]);
      }
    }
  }

  lemma StepKeepsPushedOnce(owner: Owner, db: Db, e: Event, alert: int, user: int)
    requires PushedOnce(db.rows, owner, alert, user) && !FailsPush(owner, db, e, alert, user)
    ensures PushedOnce(Step(owner, db, e).rows, owner, alert, user)
  {
    if Possible(owner, db, e) && e.UserTurn? {
      TurnKeepsPushedOnce(owner, db, e.turn, e.inserted, e.lastQueued, alert, user);
    }
  }

  /**
   * Over any run of waves (any order, replays, crashes), while none of a user's
   * push rows for the alert fails, no device of theirs gets two wave pushes.
   */
  lemma {:induction false} NoDevicePushedTwice(owner: Owner, db: Db, events: seq<Event>, alert: int, user: int)
    requires PushedOnce(db.rows, owner, alert, user) && NeverFails(owner, db, events, alert, user)
    ensures PushedOnce(Run(owner, db, events).rows, owner, alert, user)
    decreases |events|
  {
    if events != [] {
      StepKeepsPushedOnce(owner, db, events[0], alert, user);
      NoDevicePushedTwice(owner, Step(owner, db, events[0]), events[1..], alert, user);
    }
  }

  lemma StepPushesNoMore(owner: Owner, db: Db, e: Event, alert: int, user: int)
    requires HasBeenNotified(db.rows, owner, alert, user, Push) && !FailsPush(owner, db, e, alert, user)
    ensures HasBeenNotified(Step(owner, db, e).rows, owner, alert, user, Push)
    ensures |db.rows| <= |Step(owner, db, e).rows|
    ensures forall i :: |db.rows| <= i < |Step(owner, db, e).rows| ==> !IsWavePush(Step(owner, db, e).rows[i], owner, alert, user)
    ensures forall i :: 0 <= i < |db.rows| && IsWavePush(Step(owner, db, e).rows[i], owner, alert, user)
              ==> IsWavePush(db.rows[i], owner, alert, user)
  {
    var k :| 0 <= k < |db.rows| && Reaches(db.rows[k], owner, alert, user, Push);
    assert Reaches(Step(owner, db, e).rows[k], owner, alert, user, Push);
  }

  /**
   * Once one push row of a user and alert stands, no wave pushes to them for it
   * again. So a turn that crashed after its first row is never completed: its
   * remaining devices are excluded by every replay.
   */
  lemma {:induction false} ReachedUserGetsNoMore(owner: Owner, db: Db, events: seq<Event>, alert: int, user: int, i: nat)
    requires HasBeenNotified(db.rows, owner, alert, user, Push) && NeverFails(owner, db, events, alert, user)
    requires i < |Run(owner, db, events).rows| && IsWavePush(Run(owner, db, events).rows[i], owner, alert, user)
    ensures i < |db.rows| && IsWavePush(db.rows[i], owner, alert, user)
    decreases |events|
  {
    if events != [] {
      StepPushesNoMore(owner, db, events[0], alert, user);
      ReachedUserGetsNoMore(owner, Step(owner, db, events[0]), events[1..], alert, user, i);
    }
  }

  // ---------------------------------------------------------------------
  // At most one email
  // ---------------------------------------------------------------------

  function Mails(mails: seq<Mail>, alert: int, user: int): nat {
    if mails == [] then 0
    else Mails(mails[..|mails| - 1], alert, user) + (if mails[|mails| - 1] == Mail(alert, user) then 1 else 0)
  }

  /** An accepted email has left a row that stops the next one. */
  ghost predicate MailedOnce(db: Db, owner: Owner, alert: int, user: int) {
    && Mails(db.mails, alert, user) <= 1
    && (Mails(db.mails, alert, user) == 1 ==> HasBeenNotified(db.rows, owner, alert, user, Email))
  }

  predicate AlwaysRecorded(events: seq<Event>) {
    forall i :: 0 <= i < |events| ==> events[i].EmailTurn? ==> events[i].recorded
  }

  lemma EmailStaysNotified(owner: Owner, db: Db, e: Event, alert: int, user: int)
    requires HasBeenNotified(db.rows, owner, alert, user, Email)
    ensures HasBeenNotified(Step(owner, db, e).rows, owner, alert, user, Email)
  {
    var i :| 0 <= i < |db.rows| && Reaches(db.rows[i], owner, alert, user, Email);
    assert Reaches(Step(owner, db, e).rows[i], owner, alert, user, Email);
  }

  lemma MailsAppend(mails: seq<Mail>, m: Mail, alert: int, user: int)
    ensures Mails(mails + [m], alert, user) == Mails(mails, alert, user) + (if m == Mail(alert, user) then 1 else 0)
  {
    assert (mails + [m])[..|mails|] == mails;
  }

  lemma StepKeepsMailedOnce(owner: Owner, db: Db, e: Event, alert: int, user: int)
    requires MailedOnce(db, owner, alert, user) && (e.EmailTurn? ==> e.recorded)
    ensures MailedOnce(Step(owner, db, e), owner, alert, user)
  {
    var after := Step(owner, db, e);
    if HasBeenNotified(db.rows, owner, alert, user, Email) { EmailStaysNotified(owner, db, e, alert, user); }
    if after.mails != db.mails {
      MailsAppend(db.mails, Mail(e.alert, e.user), alert, user);
      if Mail(e.alert, e.user) == Mail(alert, user) {
        assert Reaches(after.rows[|db.rows|], owner, alert, user, Email);
      }
    }
  }

  /** With every email row recorded, a user gets at most one accepted email per alert. */
  lemma {:induction false} AtMostOneEmail(owner: Owner, db: Db, events: seq<Event>, alert: int, user: int)
    requires MailedOnce(db, owner, alert, user) && AlwaysRecorded(events)
    ensures MailedOnce(Run(owner, db, events), owner, alert, user)
    decreases |events|
  {
    if events != [] {
      StepKeepsMailedOnce(owner, db, events[0], alert, user);
      AtMostOneEmail(owner, Step(owner, db, events[0]), events[1..], alert, user);
    }
  }

  // ---------------------------------------------------------------------
  // The daily cap
  // ---------------------------------------------------------------------

  function BatchesSince(batches: seq<Batch>, user: int, since: int): nat {
    if batches == [] then 0
    else
      var last := batches[|batches| - 1];
      BatchesSince(batches[..|batches| - 1], user, since) + (if last.user == user && last.at >= since then 1 else 0)
  }

  /** Every batch left at least one counted row of its own. */
  ghost predicate BatchesCovered(db: Db, owner: Owner) {
    forall user: int, since: int :: BatchesSince(db.batches, user, since) <= SentSince(db.rows, owner, user, since)
  }

  lemma {:induction false} SentSinceConcat(a: seq<Row>, b: seq<Row>, owner: Owner, user: int, since: int)
    ensures SentSince(a + b, owner, user, since) == SentSince(a, owner, user, since) + SentSince(b, owner, user, since)
  {
    if b == [] {
      assert a + b == a;
    } else {
      var n := |b| - 1;
      assert (a + b)[..|a + b| - 1] == a + b[..n];
      SentSinceConcat(a, b[..n], owner, user, since);
    }
  }

  lemma {:induction false} SentSinceAll(rows: seq<Row>, owner: Owner, user: int, since: int)
    ensures SentSince(rows, owner, user, since) <= |rows|
    ensures (forall i :: 0 <= i < |rows| ==> CountsFor(rows[i], owner, user, since))
        ==> SentSince(rows, owner, user, since) == |rows|
  {
    if rows != [] { SentSinceAll(rows[..|rows| - 1], owner, user, since); }
  }

  lemma {:induction false} SentSinceUpdate(rows: seq<Row>, id: nat, status: Status, owner: Owner, user: int, since: int)
    requires id < |rows|
    ensures SentSince(rows[id := rows[id].(status := status)], owner, user, since) == SentSince(rows, owner, user, since)
  {
    var n := |rows| - 1;
    var updated := rows[id := rows[id].(status := status)];
    if id == n {
      assert updated[..n] == rows[..n];
    } else {
      assert updated[..n] == rows[..n][id := rows[id].(status := status)];
      SentSinceUpdate(rows[..n], id, status, owner, user, since);
    }
  }

  lemma BatchAppend(batches: seq<Batch>, b: Batch, user: int, since: int)
    ensures BatchesSince(batches + [b], user, since)
         == BatchesSince(batches, user, since) + (if b.user == user && b.at >= since then 1 else 0)
  {
    assert (batches + [b])[..|batches|] == batches;
  }

  lemma TurnKeepsBatchesCovered(owner: Owner, db: Db, t: Turn, inserted: nat, lastQueued: bool, user: int, since: int)
    requires ValidTurn(owner, t)
    requires BatchesSince(db.batches, user, since) <= SentSince(db.rows, owner, user, since)
    ensures var after := ApplyTurn(owner, db, t, inserted, lastQueued);
            BatchesSince(after.batches, user, since) <= SentSince(after.rows, owner, user, since)
  {
    var n := if inserted < |TurnDevices(t)| then inserted else |TurnDevices(t)|;
    var added := TurnRows(owner, db, t, n);
    SentSinceConcat(db.rows, added, owner, user, since);
    BatchAppend(db.batches, Batch(t.user, db.now, t.wave), user, since);
    if Pushes(owner, db, t) && n > 0 && t.user == user && db.now >= since {
      SentSinceAll(added, owner, user, since);
    }
  }

  lemma StepKeepsBatchesCovered(owner: Owner, db: Db, e: Event)
    requires BatchesCovered(db, owner)
    ensures BatchesCovered(Step(owner, db, e), owner)
  {
    var after := Step(owner, db, e);
    forall user: int, since: int
      ensures BatchesSince(after.batches, user, since) <= SentSince(after.rows, owner, user, since)
    {
      assert BatchesSince(db.batches, user, since) <= SentSince(db.rows, owner, user, since);
      if Possible(owner, db, e) {
        if e.UserTurn? {
          TurnKeepsBatchesCovered(owner, db, e.turn, e.inserted, e.lastQueued, user, since);
        } else if e.StatusChange? {
          SentSinceUpdate(db.rows, e.id, e.status, owner, user, since);
        } else {
          assert db.rows <= after.rows;
          assert after.rows == db.rows + after.rows[|db.rows|..];
          SentSinceConcat(db.rows, after.rows[|db.rows|..], owner, user, since);
        }
      }
    }
  }

  lemma {:induction false} RunKeepsBatchesCovered(owner: Owner, db: Db, events: seq<Event>)
    requires BatchesCovered(db, owner)
    ensures BatchesCovered(Run(owner, db, events), owner)
    decreases |events|
  {
    if events != [] {
      StepKeepsBatchesCovered(owner, db, events[0]);
      RunKeepsBatchesCovered(owner, Step(owner, db, events[0]), events[1..]);
    }
  }

  /** A turn adds at most one batch, and at most one row for each target. */
  lemma TurnAddsAtMost(owner: Owner, db: Db, t: Turn, inserted: nat, lastQueued: bool, since: int)
    requires Pushes(owner, db, t)
    ensures var after := ApplyTurn(owner, db, t, inserted, lastQueued);
      && after.now == db.now
      && BatchesSince(after.batches, t.user, since) <= BatchesSince(db.batches, t.user, since) + 1
      && SentSince(after.rows, owner, t.user, since) <= SentSince(db.rows, owner, t.user, since) + |t.targets|
  {
    var n := if inserted < |TurnDevices(t)| then inserted else |TurnDevices(t)|;
    var added := TurnRows(owner, db, t, n);
    SentSinceConcat(db.rows, added, owner, t.user, since);
    SentSinceAll(added, owner, t.user, since);
    BatchAppend(db.batches, Batch(t.user, db.now, t.wave), t.user, since);
  }

  /**
   * The rolling day that ends now holds at most cap(w) wave batches of the turn's user, and
   * at most cap(w) - 1 plus their reachable devices non-excluded rows.
   */
  ghost predicate WithinCap(owner: Owner, db: Db, t: Turn) {
    && BatchesSince(db.batches, t.user, db.now - DAY_MS) <= DailyCap(t.wave)
    && SentSince(db.rows, owner, t.user, db.now - DAY_MS) <= DailyCap(t.wave) - 1 + |t.targets|
  }

  lemma PushWithinCap(owner: Owner, db: Db, t: Turn, inserted: nat, lastQueued: bool)
    requires BatchesCovered(db, owner) && Pushes(owner, db, t)
    ensures WithinCap(owner, ApplyTurn(owner, db, t, inserted, lastQueued), t)
  {
    var since := db.now - DAY_MS;
    TurnAddsAtMost(owner, db, t, inserted, lastQueued, since);
    assert BatchesSince(db.batches, t.user, since) <= SentSince(db.rows, owner, t.user, since);
    assert SentSince(db.rows, owner, t.user, since) < DailyCap(t.wave);
  }

  function Init(start: int): Db {
    Db(start, [], [], [], [])
  }

  /** Right after any wave push of tier w in any run, the user's rolling day is within the cap of w. */
  lemma DailyCapHolds(owner: Owner, start: int, events: seq<Event>, t: Turn, inserted: nat, lastQueued: bool)
    requires Pushes(owner, Run(owner, Init(start), events), t)
    ensures WithinCap(owner, ApplyTurn(owner, Run(owner, Init(start), events), t, inserted, lastQueued), t)
  {
    RunKeepsBatchesCovered(owner, Init(start), events);
    PushWithinCap(owner, Run(owner, Init(start), events), t, inserted, lastQueued);
  }

  // --- the cap is not a maximum of notifications -------------------------------------------------

  /** A turn that pushes adds exactly one counted row for each device it reached. */
  lemma PushCountsItsDevices(owner: Owner, db: Db, t: Turn, inserted: nat, lastQueued: bool, since: int)
    requires ValidTurn(owner, t) && Pushes(owner, db, t) && since <= db.now && inserted <= |t.targets|
    ensures SentSince(ApplyTurn(owner, db, t, inserted, lastQueued).rows, owner, t.user, since)
         == SentSince(db.rows, owner, t.user, since) + inserted
  {
    var added := TurnRows(owner, db, t, inserted);
    SentSinceConcat(db.rows, added, owner, t.user, since);
    SentSinceAll(added, owner, t.user, since);
  }

  /** A push leaves the user's rolling day within the cap exactly when its devices still fit under it. */
  lemma CapKeptExactly(owner: Owner, db: Db, t: Turn, inserted: nat, lastQueued: bool)
    requires ValidTurn(owner, t) && Pushes(owner, db, t) && inserted <= |t.targets|
    ensures var since := db.now - DAY_MS;
      var after := ApplyTurn(owner, db, t, inserted, lastQueued);
      && (SentSince(after.rows, owner, t.user, since) <= DailyCap(t.wave)
          <==> SentSince(db.rows, owner, t.user, since) + inserted <= DailyCap(t.wave))
  {
    PushCountsItsDevices(owner, db, t, inserted, lastQueued, db.now - DAY_MS);
  }

  /** The first wave of a user already exceeds the cap exactly when they have more reachable devices than it allows. */
  lemma FirstPushExceedsExactly(owner: Owner, start: int, t: Turn)
    requires ValidTurn(owner, t) && t.targets != [] && (t.quiet ==> t.wave == High)
    ensures var after := Run(owner, Init(start), [UserTurn(t, |t.targets|, true)]);
      SentSince(after.rows, owner, t.user, after.now - DAY_MS) > DailyCap(t.wave) <==> |t.targets| > DailyCap(t.wave)
  {
    var e := UserTurn(t, |t.targets|, true);
    assert [e][1..] == [];
    assert Run(owner, Init(start), [e]) == Run(owner, Step(owner, Init(start), e), []);
    assert SentSince([], owner, t.user, start - DAY_MS) == 0;
    assert Pushes(owner, Init(start), t);
    PushCountsItsDevices(owner, Init(start), t, |t.targets|, true, start - DAY_MS);
  }

  /** A LOW wave, whose cap is two, sends three notifications to a user with three devices. */
  lemma LowWaveExceedsItsCap(start: int)
    ensures var owner: Owner := (device: int) => 7;
      var after := Run(owner, Init(start), [UserTurn(Turn(1, Low, false, 7, 11, true, [11, 12, 13]), 3, true)]);
      SentSince(after.rows, owner, 7, after.now - DAY_MS) > DailyCap(Low)
  {
    var owner: Owner := (device: int) => 7;
    var t := Turn(1, Low, false, 7, 11, true, [11, 12, 13]);
    FirstPushExceedsExactly(owner, start, t);
  }

  /** An exclusion never counts as a notification: no guard of a later turn sees it. */
  lemma ExclusionsDoNotCount(owner: Owner, db: Db, alert: int, device: int, reason: Reason, t: Turn)
    ensures var after := db.(rows := db.rows + [Exclusion(alert, db.now, device, reason)]);
      && Refusal(owner, after, t) == Refusal(owner, db, t)
      && (HasBeenNotified(after.rows, owner, t.alert, t.user, Email) <==> HasBeenNotified(db.rows, owner, t.alert, t.user, Email))
  {
    var row := Exclusion(alert, db.now, device, reason);
    var after := db.(rows := db.rows + [row]);
    assert after.rows[..|db.rows|] == db.rows;
    forall channel: Channel
      ensures HasBeenNotified(after.rows, owner, t.alert, t.user, channel) <==> HasBeenNotified(db.rows, owner, t.alert, t.user, channel)
    {
      if HasBeenNotified(db.rows, owner, t.alert, t.user, channel) {
        var i :| 0 <= i < |db.rows| && Reaches(db.rows[i], owner, t.alert, t.user, channel);
        assert Reaches(after.rows[i], owner, t.alert, t.user, channel);
      }
    }
  }

  // --- what a crash or an unrecorded email leaves ---------------------------------------------------

  /** A push cut short after any device: until one of its rows fails, no turn of that user pushes for the alert. */
  lemma CutShortPushIsFinal(owner: Owner, db: Db, t: Turn, inserted: nat, lastQueued: bool, again: Turn)
    requires ValidTurn(owner, t) && Pushes(owner, db, t) && inserted > 0
    requires again.alert == t.alert && again.user == t.user
    ensures !Pushes(owner, ApplyTurn(owner, db, t, inserted, lastQueued), again)
  {
    var after := ApplyTurn(owner, db, t, inserted, lastQueued);
    assert Reaches(after.rows[|db.rows|], owner, t.alert, t.user, Push);
  }

  /** A second email is accepted after a first one exactly when the first left no row. */
  lemma EmailRepeatsExactly(owner: Owner, db: Db, alert: int, user: int, device: int, recorded: bool, again: bool)
    requires owner(device) == user && !HasBeenNotified(db.rows, owner, alert, user, Email)
    ensures var once := ApplyEmail(owner, db, alert, user, device, Accepted, recorded);
      var twice := ApplyEmail(owner, once, alert, user, device, Accepted, again);
      twice.mails == db.mails + [Mail(alert, user), Mail(alert, user)] <==> !recorded
  {
    var once := ApplyEmail(owner, db, alert, user, device, Accepted, recorded);
    if recorded {
      assert Reaches(once.rows[|db.rows|], owner, alert, user, Email);
    } else {
      assert once.rows == db.rows;
    }
  }
}
