/**
 * The invitation lifecycle (src/invitation/invitation.service.ts) as steps over
 * one database value. `create`, `revoke` and `resend` are one step each;
 * deliveries, sweeps and conversions are steps of their own, so a run is any
 * interleaving of them.
 */
module Invitations {
  import opened Common
  import opened InvitationTokens

  /** The configuration, with its day and minute settings converted to milliseconds. */
  datatype Config = Config(
    enabled: bool, ttlMs: nat, dailyLimit: nat, resendCooldownMs: nat, globalHourlyLimit: nat)

  datatype Status = Pending | Accepted | Expired | Revoked
  datatype Via = ViaToken | ViaEmail

  datatype Invitation = Invitation(
    sender: int, email: string, hash: TokenHash, status: Status, sentAt: int, expiresAt: int,
    acceptedVia: Option<Via>, acceptedAt: Option<int>, convertedUser: Option<int>, revokedAt: Option<int>)

  datatype Outcome = Queued | Sent | Failed

  /** A send-log row, together with the raw token that its delivery carries. */
  datatype Send = Send(invitation: nat, sender: int, token: string, sentAt: int, outcome: Outcome)

  /**
   * Row ids and log ids are positions, since neither table loses rows here.
   * `outstanding` holds the log ids of deliveries that have not finished.
   */
  datatype Db = Db(
    now: int, rows: seq<Invitation>, log: seq<Send>, accounts: set<string>,
    minted: set<string>, outstanding: set<nat>)

  datatype Event =
    | Create(sender: int, email: string, fieldsOk: bool, token: string)
    | Revoke(sender: int, id: int)
    | Resend(sender: int, id: int, token: string)
    | SweepExpired(scope: Option<int>)
    | Preview(token: string)
    | AcceptByToken(token: string, user: int)
    | AcceptByEmail(email: string, user: int)
    | DeliverySucceeded(logId: nat)
    | DeliveryFailed(logId: nat)
    | Register(email: string)
    | Wait(ms: nat)

  /** What a caller sees. `Impossible` answers an event that cannot occur, such as a token minted twice. */
  datatype Reply =
    | Done | Issued(id: nat) | Changed(count: nat) | Valid
    | Unconfigured | BadRequest | AlreadyRegistered | InvitePending
    | DailyLimitReached | HourlyLimitReached | CoolingDown
    | NotFound | NotPending | NotResendable | Impossible

  datatype Result = Result(db: Db, reply: Reply)

  // ---------------------------------------------------------------------
  // Queries
  // ---------------------------------------------------------------------

  predicate Fresh(db: Db, token: string) {
    IsMintedShape(token) && token !in db.minted
  }

  predicate Live(row: Invitation, now: int) {
    row.status == Pending && row.expiresAt > now
  }

  predicate Stale(row: Invitation, now: int) {
    row.status == Pending && row.expiresAt < now
  }

  predicate PendingFor(row: Invitation, sender: int, email: string) {
    row.status == Pending && row.sender == sender && row.email == email
  }

  predicate HasPending(rows: seq<Invitation>, sender: int, email: string) {
    exists i :: 0 <= i < |rows| && PendingFor(rows[i], sender, email)
  }

  /** The partial unique index would be violated by making row `id` PENDING. */
  predicate IndexBlocks(rows: seq<Invitation>, id: nat)
    requires id < |rows|
  {
    exists i :: 0 <= i < |rows| && i != id && PendingFor(rows[i], rows[id].sender, rows[id].email)
  }

  predicate Owned(db: Db, sender: int, id: int) {
    0 <= id < |db.rows| && db.rows[id].sender == sender
  }

  predicate From(send: Send, who: Option<int>) {
    send.outcome != Failed && (who.None? || send.sender == who.value)
  }

  /** Sends of `who` (of anyone when absent) after `since` whose outcome is not `failed`. */
  function CountSince(log: seq<Send>, who: Option<int>, since: int): nat {
    if log == [] then 0
    else
      var last := log[|log| - 1];
      CountSince(log[..|log| - 1], who, since) + (if From(last, who) && last.sentAt > since then 1 else 0)
  }

  /** The same, for the rolling window that opens just after `at` and lasts `span`. */
  ghost function CountWindow(log: seq<Send>, who: Option<int>, at: int, span: int): nat {
    if log == [] then 0
    else
      var last := log[|log| - 1];
      CountWindow(log[..|log| - 1], who, at, span)
      + (if From(last, who) && at < last.sentAt <= at + span then 1 else 0)
  }

  /** The newest log row of an invitation, or -1. */
  function LastSend(log: seq<Send>, id: nat): (k: int)
    ensures -1 <= k < |log|
    ensures 0 <= k ==> log[k].invitation == id
    ensures forall j :: k < j < |log| ==> log[j].invitation != id
  {
    if log == [] then -1
    else if log[|log| - 1].invitation == id then |log| - 1
    else LastSend(log[..|log| - 1], id)
  }

  function TokenMatches(db: Db, token: string): set<nat> {
    set i: nat | i < |db.rows| && db.rows[i].hash == Sha256(token) && Live(db.rows[i], db.now)
  }

  function EmailMatches(db: Db, email: string): set<nat> {
    set i: nat | i < |db.rows| && db.rows[i].email == email && Live(db.rows[i], db.now)
  }

  // ---------------------------------------------------------------------
  // Steps
  // ---------------------------------------------------------------------

  function SendLimit(cfg: Config, db: Db, sender: int): Option<Reply> {
    if CountSince(db.log, Some(sender), db.now - DAY_MS) >= cfg.dailyLimit then Some(DailyLimitReached)
    else if cfg.globalHourlyLimit > 0
         && CountSince(db.log, None, db.now - HOUR_MS) >= cfg.globalHourlyLimit then Some(HourlyLimitReached)
    else None
  }

  predicate InCooldown(cfg: Config, db: Db, id: nat)
    requires id < |db.rows|
  {
    var k := LastSend(db.log, id);
    && (k < 0 || db.log[k].outcome != Failed)
    && db.now - db.rows[id].sentAt < cfg.resendCooldownMs
  }

  function ExpiryFor(cfg: Config, now: int): int {
    now + cfg.ttlMs
  }

  /** The send-log half of the transaction, and the delivery queued after it commits. */
  function Record(db: Db, id: nat, sender: int, token: string): Db {
    db.(log := db.log + [Send(id, sender, token, db.now, Queued)],
        minted := db.minted + {token},
        outstanding := db.outstanding + {|db.log|})
  }

  function NewRow(cfg: Config, now: int, sender: int, email: string, token: string): Invitation {
    Invitation(sender, email, Sha256(token), Pending, now, ExpiryFor(cfg, now), None, None, None, None)
  }

  function CreateStep(cfg: Config, db: Db, sender: int, email: string, fieldsOk: bool, token: string): Result {
    if !Fresh(db, token) then Result(db, Impossible)
    else if !cfg.enabled then Result(db, Unconfigured)
    else if !fieldsOk then Result(db, BadRequest)
    else if email in db.accounts then Result(db, AlreadyRegistered)
    else if HasPending(db.rows, sender, email) then Result(db, InvitePending)
    else if SendLimit(cfg, db, sender).Some? then Result(db, SendLimit(cfg, db, sender).value)
    else
      var id := |db.rows|;
      var added := db.(rows := db.rows + [NewRow(cfg, db.now, sender, email, token)]);
      Result(Record(added, id, sender, token), Issued(id))
  }

  function RevokeStep(cfg: Config, db: Db, sender: int, id: int): Result {
    if !cfg.enabled then Result(db, Unconfigured)
    else if !Owned(db, sender, id) then Result(db, NotFound)
    else if db.rows[id].status != Pending then Result(db, NotPending)
    else Result(db.(rows := db.rows[id := db.rows[id].(status := Revoked, revokedAt := Some(db.now))]), Done)
  }

  /** Every refusal of `resend` that comes before the transaction. */
  function ResendRefusal(cfg: Config, db: Db, sender: int, id: int): Option<Reply> {
    if !cfg.enabled then Some(Unconfigured)
    else if !Owned(db, sender, id) then Some(NotFound)
    else if db.rows[id].status == Accepted || db.rows[id].status == Revoked then Some(NotResendable)
    else if db.rows[id].email in db.accounts then Some(AlreadyRegistered)
    else if InCooldown(cfg, db, id) then Some(CoolingDown)
    else SendLimit(cfg, db, sender)
  }

  function Reissued(cfg: Config, row: Invitation, now: int, token: string): Invitation {
    row.(hash := Sha256(token), status := Pending, sentAt := now, expiresAt := ExpiryFor(cfg, now))
  }

  function ResendStep(cfg: Config, db: Db, sender: int, id: int, token: string): Result {
    if !Fresh(db, token) then Result(db, Impossible)
    else if ResendRefusal(cfg, db, sender, id).Some? then Result(db, ResendRefusal(cfg, db, sender, id).value)
    else if IndexBlocks(db.rows, id) then Result(db.(minted := db.minted + {token}), InvitePending)
    else
      Result(Record(db.(rows := db.rows[id := Reissued(cfg, db.rows[id], db.now, token)]), id, sender, token), Issued(id))
  }

  function SweptRow(row: Invitation, now: int, scope: Option<int>): Invitation {
    if Stale(row, now) && (scope.None? || row.sender == scope.value) then row.(status := Expired) else row
  }

  function Swept(db: Db, scope: Option<int>): Db {
    db.(rows := seq(|db.rows|, i requires 0 <= i < |db.rows| => SweptRow(db.rows[i], db.now, scope)))
  }

  predicate PreviewOk(db: Db, token: string) {
    && IsPlausibleInviteToken(token)
    && exists i :: 0 <= i < |db.rows| && db.rows[i].hash == Sha256(token)
                   && db.rows[i].status == Pending && db.rows[i].expiresAt > db.now
  }

  function Converted(row: Invitation, via: Via, now: int, user: int): Invitation {
    row.(status := Accepted, acceptedVia := Some(via), acceptedAt := Some(now), convertedUser := Some(user))
  }

  function ConvertAll(db: Db, ids: set<nat>, via: Via, user: int): Db {
    db.(rows := seq(|db.rows|, i requires 0 <= i < |db.rows| =>
      if i in ids then Converted(db.rows[i], via, db.now, user) else db.rows[i]))
  }

  function LogOutcome(db: Db, k: nat, outcome: Outcome): Db
    requires k < |db.log|
  {
    db.(log := db.log[k := db.log[k].(outcome := outcome)], outstanding := db.outstanding - {k})
  }

  function FailedRow(row: Invitation, hash: TokenHash): Invitation {
    if row.status == Pending && row.hash == hash then row.(status := Expired) else row
  }

  /** Only the delivery's own row is updated, and only if it is still the same PENDING send. */
  function ExpireSend(db: Db, id: nat, token: string): Db {
    if id < |db.rows| then db.(rows := db.rows[id := FailedRow(db.rows[id], Sha256(token))]) else db
  }

  function Step(cfg: Config, db: Db, e: Event): Result {
    match e
    case Create(sender, email, fieldsOk, token) => CreateStep(cfg, db, sender, email, fieldsOk, token)
    case Revoke(sender, id) => RevokeStep(cfg, db, sender, id)
    case Resend(sender, id, token) => ResendStep(cfg, db, sender, id, token)
    case SweepExpired(scope) => Result(Swept(db, scope), Done)
    case Preview(token) =>
      Result(db, if !cfg.enabled then Unconfigured else if PreviewOk(db, token) then Valid else NotFound)
    case AcceptByToken(token, user) =>
      var ids := TokenMatches(db, token);
      Result(ConvertAll(db, ids, ViaToken, user), Changed(|ids|))
    case AcceptByEmail(email, user) =>
      var ids := EmailMatches(db, email);
      Result(ConvertAll(db, ids, ViaEmail, user), Changed(|ids|))
    case DeliverySucceeded(k) =>
      if k !in db.outstanding || k >= |db.log| then Result(db, Impossible)
      else Result(LogOutcome(db, k, Sent), Done)
    case DeliveryFailed(k) =>
      if k !in db.outstanding || k >= |db.log| then Result(db, Impossible)
      else Result(ExpireSend(LogOutcome(db, k, Failed), db.log[k].invitation, db.log[k].token), Done)
    case Register(email) => Result(db.(accounts := db.accounts + {email}), Done)
    case Wait(ms) => Result(db.(now := db.now + ms), Done)
  }

  function Run(cfg: Config, db: Db, events: seq<Event>): Db
    decreases |events|
  {
    if events == [] then db else Run(cfg, Step(cfg, db, events[0]).db, events[1..])
  }

  function Init(now: int): Db {
    Db(now, [], [], {}, {}, {})
  }

  // ---------------------------------------------------------------------
  // The run invariant
  // ---------------------------------------------------------------------

  ghost predicate LogInv(db: Db) {
    && (forall i, j :: 0 <= i < j < |db.log| ==> db.log[i].sentAt <= db.log[j].sentAt)
    && (forall i, j :: 0 <= i < j < |db.log| ==> db.log[i].token != db.log[j].token)
    && (forall i :: 0 <= i < |db.log| ==>
          && db.log[i].sentAt <= db.now && db.log[i].invitation < |db.rows|
          && db.log[i].token in db.minted && IsMintedShape(db.log[i].token)
          && (db.log[i].outcome == Queued <==> i in db.outstanding))
    && (forall k :: k in db.outstanding ==> k < |db.log|)
  }

  /** The row mirrors its newest send, and acceptance columns are set exactly on ACCEPTED rows. */
  ghost predicate RowOk(cfg: Config, log: seq<Send>, id: nat, row: Invitation) {
    var k := LastSend(log, id);
    && 0 <= k && row.hash == Sha256(log[k].token) && row.sentAt == log[k].sentAt
    && row.expiresAt == ExpiryFor(cfg, row.sentAt)
    && (row.status == Accepted <==> row.acceptedVia.Some?)
    && (row.status == Accepted <==> row.acceptedAt.Some?)
    && (row.status == Accepted <==> row.convertedUser.Some?)
  }

  ghost predicate OnePending(rows: seq<Invitation>) {
    forall i, j :: 0 <= i < j < |rows| && rows[i].status == Pending && rows[j].status == Pending
      ==> rows[i].sender != rows[j].sender || rows[i].email != rows[j].email
  }

  ghost predicate RowInv(cfg: Config, db: Db) {
    && (forall id: nat :: id < |db.rows| ==> RowOk(cfg, db.log, id, db.rows[id]))
    && OnePending(db.rows)
  }

  /** No sender beyond the daily limit in any rolling day, nor everyone beyond the hourly cap. */
  ghost predicate LimitInv(cfg: Config, log: seq<Send>) {
    && (forall sender: int, at: int :: CountWindow(log, Some(sender), at, DAY_MS) <= cfg.dailyLimit)
    && (cfg.globalHourlyLimit > 0 ==>
          forall at: int :: CountWindow(log, None, at, HOUR_MS) <= cfg.globalHourlyLimit)
  }

  /** Two sends of one invitation are a cooldown apart unless the earlier one failed. */
  ghost predicate CooldownInv(cfg: Config, log: seq<Send>) {
    forall i, j :: 0 <= i < j < |log| && log[i].invitation == log[j].invitation && log[i].outcome != Failed
      ==> log[j].sentAt - log[i].sentAt >= cfg.resendCooldownMs
  }

  ghost predicate Inv(cfg: Config, db: Db) {
    LogInv(db) && RowInv(cfg, db) && LimitInv(cfg, db.log) && CooldownInv(cfg, db.log)
  }

  // --- counting -----------------------------------------------------------

  lemma {:induction false} WindowWithinSince(log: seq<Send>, who: Option<int>, at: int, span: int, since: int)
    requires since <= at
    ensures CountWindow(log, who, at, span) <= CountSince(log, who, since)
  {
    if log != [] { WindowWithinSince(log[..|log| - 1], who, at, span, since); }
  }

  lemma {:induction false} FinishedCountsLess(log: seq<Send>, k: nat, outcome: Outcome, who: Option<int>, at: int, span: int)
    requires k < |log| && log[k].outcome == Queued
    ensures CountWindow(log[k := log[k].(outcome := outcome)], who, at, span) <= CountWindow(log, who, at, span)
  {
    var updated := log[k := log[k].(outcome := outcome)];
    if k == |log| - 1 {
      assert updated[..|log| - 1] == log[..|log| - 1];
    } else {
      assert updated[..|log| - 1] == log[..|log| - 1][k := log[k].(outcome := outcome)];
      FinishedCountsLess(log[..|log| - 1], k, outcome, who, at, span);
    }
  }

  /** With no send in the future, what the check counts is the rolling window that ends now. */
  lemma {:induction false} SinceIsWindow(log: seq<Send>, who: Option<int>, now: int, span: int)
    requires forall i :: 0 <= i < |log| ==> log[i].sentAt <= now
    ensures CountSince(log, who, now - span) == CountWindow(log, who, now - span, span)
  {
    if log != [] { SinceIsWindow(log[..|log| - 1], who, now, span); }
  }

  ghost predicate DayIsFull(cfg: Config, db: Db, sender: int) {
    CountWindow(db.log, Some(sender), db.now - DAY_MS, DAY_MS) == cfg.dailyLimit
  }

  ghost predicate HourIsFull(cfg: Config, db: Db) {
    cfg.globalHourlyLimit > 0 && CountWindow(db.log, None, db.now - HOUR_MS, HOUR_MS) == cfg.globalHourlyLimit
  }

  /** The check refuses exactly when a rolling window is full, and otherwise any one send keeps all windows within the limits. */
  lemma RefusesExactlyWhenFull(cfg: Config, db: Db, sender: int)
    requires Inv(cfg, db)
    ensures SendLimit(cfg, db, sender) == Some(DailyLimitReached) <==> DayIsFull(cfg, db, sender)
    ensures SendLimit(cfg, db, sender) == Some(HourlyLimitReached) <==> !DayIsFull(cfg, db, sender) && HourIsFull(cfg, db)
    ensures SendLimit(cfg, db, sender).None? ==>
      forall id: nat, token: string :: LimitInv(cfg, Record(db, id, sender, token).log)
  {
    SinceIsWindow(db.log, Some(sender), db.now, DAY_MS);
    SinceIsWindow(db.log, None, db.now, HOUR_MS);
    if SendLimit(cfg, db, sender).None? {
      forall id: nat, token: string ensures LimitInv(cfg, Record(db, id, sender, token).log) {
        RecordKeepsLimits(cfg, db, id, sender, token);
      }
    }
  }

  lemma SendStaysWithinLimit(log: seq<Send>, send: Send, who: Option<int>, at: int, span: int, limit: nat)
    requires CountSince(log, who, send.sentAt - span) < limit
    requires CountWindow(log, who, at, span) <= limit
    ensures CountWindow(log + [send], who, at, span) <= limit
  {
    assert (log + [send])[..|log|] == log;
    if at < send.sentAt <= at + span {
      WindowWithinSince(log, who, at, span, send.sentAt - span);
    }
  }

  // --- preservation -------------------------------------------------------

  lemma LastSendAppend(log: seq<Send>, send: Send, id: nat)
    ensures LastSend(log + [send], id) == if send.invitation == id then |log| else LastSend(log, id)
  {
    assert (log + [send])[..|log|] == log;
  }

  lemma {:induction false} LastSendUpdate(log: seq<Send>, k: nat, outcome: Outcome, id: nat)
    requires k < |log|
    ensures LastSend(log[k := log[k].(outcome := outcome)], id) == LastSend(log, id)
  {
    var n := |log| - 1;
    var updated := log[k := log[k].(outcome := outcome)];
    if k == n {
      assert updated[..n] == log[..n];
    } else {
      assert updated[..n] == log[..n][k := log[k].(outcome := outcome)];
      LastSendUpdate(log[..n], k, outcome, id);
    }
  }

  lemma RecordKeepsLog(db: Db, id: nat, sender: int, token: string)
    requires LogInv(db) && id < |db.rows| && Fresh(db, token)
    ensures LogInv(Record(db, id, sender, token))
  {
  }

  /** A send the limits let through keeps every rolling window within them. */
  lemma RecordKeepsLimits(cfg: Config, db: Db, id: nat, sender: int, token: string)
    requires LimitInv(cfg, db.log) && SendLimit(cfg, db, sender).None?
    ensures LimitInv(cfg, Record(db, id, sender, token).log)
  {
    var send := Send(id, sender, token, db.now, Queued);
    var after := db.log + [send];
    forall who: int, at: int ensures CountWindow(after, Some(who), at, DAY_MS) <= cfg.dailyLimit {
      if who == sender {
        SendStaysWithinLimit(db.log, send, Some(who), at, DAY_MS, cfg.dailyLimit);
      } else {
        assert after[..|db.log|] == db.log;
      }
    }
    if cfg.globalHourlyLimit > 0 {
      forall at: int ensures CountWindow(after, None, at, HOUR_MS) <= cfg.globalHourlyLimit {
        SendStaysWithinLimit(db.log, send, None, at, HOUR_MS, cfg.globalHourlyLimit);
      }
    }
  }

  ghost predicate CooledDown(cfg: Config, db: Db, id: nat) {
    var k := LastSend(db.log, id);
    k < 0 || db.log[k].outcome == Failed || db.now - db.log[k].sentAt >= cfg.resendCooldownMs
  }

  /** A failed newest send lifts the cooldown, yet any earlier send is already a cooldown behind it. */
  lemma RecordKeepsCooldown(cfg: Config, db: Db, id: nat, sender: int, token: string)
    requires LogInv(db) && CooldownInv(cfg, db.log) && CooledDown(cfg, db, id)
    ensures CooldownInv(cfg, Record(db, id, sender, token).log)
  {
    var after := Record(db, id, sender, token).log;
    var k := LastSend(db.log, id);
    forall i, j | 0 <= i < j < |after| && after[i].invitation == after[j].invitation && after[i].outcome != Failed
      ensures after[j].sentAt - after[i].sentAt >= cfg.resendCooldownMs
    {
      if j == |db.log| {
        assert i <= k;
        assert db.log[k].sentAt <= db.now;
      }
    }
  }

  /** A row either stays or stops being PENDING, keeping its identity. */
  ghost predicate Closes(row: Invitation, after: Invitation) {
    || after == row
    || (&& row.status == Pending && after.status != Pending
        && after.sender == row.sender && after.email == row.email && after.hash == row.hash
        && after.sentAt == row.sentAt && after.expiresAt == row.expiresAt
        && (after.status == Accepted <==> after.acceptedVia.Some?)
        && (after.status == Accepted <==> after.acceptedAt.Some?)
        && (after.status == Accepted <==> after.convertedUser.Some?))
  }

  lemma ClosingKeepsInv(cfg: Config, db: Db, rows: seq<Invitation>)
    requires Inv(cfg, db) && |rows| == |db.rows|
    requires forall i :: 0 <= i < |rows| ==> Closes(db.rows[i], rows[i])
    ensures Inv(cfg, db.(rows := rows))
  {
    var after := db.(rows := rows);
    forall id: nat | id < |rows| ensures RowOk(cfg, after.log, id, rows[id]) {
      assert RowOk(cfg, db.log, id, db.rows[id]);
      assert Closes(db.rows[id], rows[id]);
    }
    forall i, j | 0 <= i < j < |rows| && rows[i].status == Pending && rows[j].status == Pending
      ensures rows[i].sender != rows[j].sender || rows[i].email != rows[j].email
    {
      assert Closes(db.rows[i], rows[i]) && Closes(db.rows[j], rows[j]);
    }
  }

  lemma NewSendKeepsOtherRows(cfg: Config, log: seq<Send>, send: Send, id: nat, row: Invitation)
    requires RowOk(cfg, log, id, row) && send.invitation != id
    ensures RowOk(cfg, log + [send], id, row)
  {
    LastSendAppend(log, send, id);
  }

  lemma NewRowKeepsRows(cfg: Config, db: Db, row: Invitation, send: Send)
    requires RowInv(cfg, db) && send.invitation == |db.rows| && !HasPending(db.rows, row.sender, row.email)
    requires row == NewRow(cfg, send.sentAt, row.sender, row.email, send.token)
    ensures RowInv(cfg, db.(rows := db.rows + [row], log := db.log + [send]))
  {
    var rows, log := db.rows + [row], db.log + [send];
    forall i: nat | i < |rows| ensures RowOk(cfg, log, i, rows[i]) {
      if i < |db.rows| {
        NewSendKeepsOtherRows(cfg, db.log, send, i, db.rows[i]);
      } else {
        LastSendAppend(db.log, send, i);
      }
    }
    assert forall i :: 0 <= i < |db.rows| ==> !PendingFor(db.rows[i], row.sender, row.email);
  }

  lemma CreateKeepsInv(cfg: Config, db: Db, sender: int, email: string, token: string)
    requires Inv(cfg, db) && Fresh(db, token)
    requires !HasPending(db.rows, sender, email) && SendLimit(cfg, db, sender).None?
    ensures var added := db.(rows := db.rows + [NewRow(cfg, db.now, sender, email, token)]);
            Inv(cfg, Record(added, |db.rows|, sender, token))
  {
    var id := |db.rows|;
    var row := NewRow(cfg, db.now, sender, email, token);
    var added := db.(rows := db.rows + [row]);
    LogKeptByRows(db, added.rows);
    RecordKeepsLog(added, id, sender, token);
    RecordKeepsLimits(cfg, added, id, sender, token);
    RecordKeepsCooldown(cfg, added, id, sender, token);
    NewRowKeepsRows(cfg, db, row, Send(id, sender, token, db.now, Queued));
  }

  lemma ReissueKeepsRows(cfg: Config, db: Db, send: Send, token: string)
    requires RowInv(cfg, db) && send.invitation < |db.rows|
    requires send.token == token && send.sentAt == db.now
    requires db.rows[send.invitation].status != Accepted && !IndexBlocks(db.rows, send.invitation)
    ensures var id := send.invitation;
            RowInv(cfg, db.(rows := db.rows[id := Reissued(cfg, db.rows[id], db.now, token)], log := db.log + [send]))
  {
    var id := send.invitation;
    var rows := db.rows[id := Reissued(cfg, db.rows[id], db.now, token)];
    forall i: nat | i < |rows| ensures RowOk(cfg, db.log + [send], i, rows[i]) {
      assert RowOk(cfg, db.log, i, db.rows[i]);
      LastSendAppend(db.log, send, i);
    }
    assert OnePending(rows) by {
      assert forall i :: 0 <= i < |db.rows| && i != id ==> !PendingFor(db.rows[i], db.rows[id].sender, db.rows[id].email);
    }
  }

  lemma LogKeptByRows(db: Db, rows: seq<Invitation>)
    requires LogInv(db) && |db.rows| <= |rows|
    ensures LogInv(db.(rows := rows))
  {
  }

  lemma CooldownIsOver(cfg: Config, db: Db, id: nat)
    requires RowInv(cfg, db) && id < |db.rows| && !InCooldown(cfg, db, id)
    ensures CooledDown(cfg, db, id)
  {
    assert RowOk(cfg, db.log, id, db.rows[id]);
  }

  lemma ResendKeepsInv(cfg: Config, db: Db, sender: int, id: nat, token: string)
    requires Inv(cfg, db) && Fresh(db, token) && id < |db.rows|
    requires db.rows[id].status != Accepted && !IndexBlocks(db.rows, id)
    requires !InCooldown(cfg, db, id) && SendLimit(cfg, db, sender).None?
    ensures var reset := db.(rows := db.rows[id := Reissued(cfg, db.rows[id], db.now, token)]);
            Inv(cfg, Record(reset, id, sender, token))
  {
    var reset := db.(rows := db.rows[id := Reissued(cfg, db.rows[id], db.now, token)]);
    LogKeptByRows(db, reset.rows);
    RecordKeepsLog(reset, id, sender, token);
    RecordKeepsLimits(cfg, reset, id, sender, token);
    CooldownIsOver(cfg, db, id);
    RecordKeepsCooldown(cfg, reset, id, sender, token);
    ReissueKeepsRows(cfg, db, Send(id, sender, token, db.now, Queued), token);
  }

  lemma FinishKeepsRows(cfg: Config, db: Db, k: nat, outcome: Outcome)
    requires RowInv(cfg, db) && k < |db.log|
    ensures RowInv(cfg, LogOutcome(db, k, outcome))
  {
    var after := LogOutcome(db, k, outcome);
    forall id: nat | id < |db.rows| ensures RowOk(cfg, after.log, id, after.rows[id]) {
      assert RowOk(cfg, db.log, id, db.rows[id]);
      LastSendUpdate(db.log, k, outcome, id);
    }
  }

  lemma FinishKeepsLimits(cfg: Config, log: seq<Send>, k: nat, outcome: Outcome)
    requires LimitInv(cfg, log) && k < |log| && log[k].outcome == Queued
    ensures LimitInv(cfg, log[k := log[k].(outcome := outcome)])
  {
    var after := log[k := log[k].(outcome := outcome)];
    forall who: int, at: int ensures CountWindow(after, Some(who), at, DAY_MS) <= cfg.dailyLimit {
      FinishedCountsLess(log, k, outcome, Some(who), at, DAY_MS);
    }
    if cfg.globalHourlyLimit > 0 {
      forall at: int ensures CountWindow(after, None, at, HOUR_MS) <= cfg.globalHourlyLimit {
        FinishedCountsLess(log, k, outcome, None, at, HOUR_MS);
      }
    }
  }

  lemma FinishKeepsLog(cfg: Config, db: Db, k: nat, outcome: Outcome)
    requires LogInv(db) && CooldownInv(cfg, db.log) && k < |db.log| && k in db.outstanding && outcome != Queued
    ensures LogInv(LogOutcome(db, k, outcome)) && CooldownInv(cfg, LogOutcome(db, k, outcome).log)
  {
  }

  lemma FinishKeepsInv(cfg: Config, db: Db, k: nat, outcome: Outcome)
    requires Inv(cfg, db) && k < |db.log| && k in db.outstanding && outcome != Queued
    ensures Inv(cfg, LogOutcome(db, k, outcome))
  {
    FinishKeepsRows(cfg, db, k, outcome);
    FinishKeepsLimits(cfg, db.log, k, outcome);
    FinishKeepsLog(cfg, db, k, outcome);
  }

  /** Events that only take rows out of PENDING. */
  predicate Closing(e: Event) {
    e.Revoke? || e.SweepExpired? || e.AcceptByToken? || e.AcceptByEmail?
  }

  lemma ClosingStepKeepsInv(cfg: Config, db: Db, e: Event)
    requires Inv(cfg, db) && Closing(e)
    ensures Inv(cfg, Step(cfg, db, e).db)
  {
    var after := Step(cfg, db, e).db;
    assert after == db.(rows := after.rows);
    ClosingKeepsInv(cfg, db, after.rows);
  }

  lemma ExpireKeepsInv(cfg: Config, db: Db, id: nat, token: string)
    requires Inv(cfg, db)
    ensures Inv(cfg, ExpireSend(db, id, token))
  {
    if id < |db.rows| {
      ClosingKeepsInv(cfg, db, db.rows[id := FailedRow(db.rows[id], Sha256(token))]);
    }
  }

  /** What the two outcomes do to a logged, outstanding send. */
  lemma DeliverySteps(cfg: Config, db: Db, k: nat)
    requires k in db.outstanding && k < |db.log|
    ensures Step(cfg, db, DeliverySucceeded(k)).db == LogOutcome(db, k, Sent)
    ensures Step(cfg, db, DeliveryFailed(k)).db
         == ExpireSend(LogOutcome(db, k, Failed), db.log[k].invitation, db.log[k].token)
  {
  }

  lemma FailureKeepsInv(cfg: Config, db: Db, k: nat)
    requires Inv(cfg, db) && k in db.outstanding && k < |db.log|
    ensures Inv(cfg, ExpireSend(LogOutcome(db, k, Failed), db.log[k].invitation, db.log[k].token))
  {
    FinishKeepsInv(cfg, db, k, Failed);
    ExpireKeepsInv(cfg, LogOutcome(db, k, Failed), db.log[k].invitation, db.log[k].token);
  }

  lemma DeliveryKeepsInv(cfg: Config, db: Db, k: nat)
    requires Inv(cfg, db) && k in db.outstanding
    ensures Inv(cfg, Step(cfg, db, DeliverySucceeded(k)).db)
    ensures Inv(cfg, Step(cfg, db, DeliveryFailed(k)).db)
  {
    OutstandingIsLogged(cfg, db, k);
    DeliverySteps(cfg, db, k);
    FinishKeepsInv(cfg, db, k, Sent);
    FailureKeepsInv(cfg, db, k);
  }

  lemma OutstandingIsLogged(cfg: Config, db: Db, k: nat)
    requires Inv(cfg, db) && k in db.outstanding
    ensures k < |db.log|
  {
  }

  lemma IdleKeepsInv(cfg: Config, db: Db, after: Db)
    requires Inv(cfg, db) && db.now <= after.now && db.minted <= after.minted
    requires after == db.(now := after.now, minted := after.minted, accounts := after.accounts)
    ensures Inv(cfg, after)
  {
  }

  /** The create step either refuses and changes nothing, or passes every check and records. */
  lemma CreateStepCases(cfg: Config, db: Db, sender: int, email: string, fieldsOk: bool, token: string)
    ensures var r := CreateStep(cfg, db, sender, email, fieldsOk, token);
      if r.reply.Issued? then
        && Fresh(db, token) && !HasPending(db.rows, sender, email) && SendLimit(cfg, db, sender).None?
        && r.db == Record(db.(rows := db.rows + [NewRow(cfg, db.now, sender, email, token)]), |db.rows|, sender, token)
      else r.db == db
  {
  }

  lemma CreateStepKeepsInv(cfg: Config, db: Db, e: Event)
    requires Inv(cfg, db) && e.Create?
    ensures Inv(cfg, Step(cfg, db, e).db)
  {
    CreateStepCases(cfg, db, e.sender, e.email, e.fieldsOk, e.token);
    if Step(cfg, db, e).reply.Issued? { CreateKeepsInv(cfg, db, e.sender, e.email, e.token); }
  }

  /** The resend step either passes every check and records, or at most uses up a token. */
  lemma ResendStepCases(cfg: Config, db: Db, sender: int, id: int, token: string)
    ensures var r := ResendStep(cfg, db, sender, id, token);
      if r.reply.Issued? then
        && Fresh(db, token) && ResendRefusal(cfg, db, sender, id).None? && 0 <= id < |db.rows| && !IndexBlocks(db.rows, id)
        && db.rows[id].status != Accepted && !InCooldown(cfg, db, id) && SendLimit(cfg, db, sender).None?
        && r.db == Record(db.(rows := db.rows[id := Reissued(cfg, db.rows[id], db.now, token)]), id, sender, token)
      else db.minted <= r.db.minted && r.db == db.(minted := r.db.minted)
  {
  }

  lemma ResendStepKeepsInv(cfg: Config, db: Db, e: Event)
    requires Inv(cfg, db) && e.Resend?
    ensures Inv(cfg, Step(cfg, db, e).db)
  {
    ResendStepCases(cfg, db, e.sender, e.id, e.token);
    if Step(cfg, db, e).reply.Issued? {
      ResendKeepsInv(cfg, db, e.sender, e.id, e.token);
    } else {
      IdleKeepsInv(cfg, db, Step(cfg, db, e).db);
    }
  }

  /** Every step keeps the invariant. */
  lemma StepKeepsInv(cfg: Config, db: Db, e: Event)
    requires Inv(cfg, db)
    ensures Inv(cfg, Step(cfg, db, e).db)
  {
    if Closing(e) {
      ClosingStepKeepsInv(cfg, db, e);
    } else if e.Create? {
      CreateStepKeepsInv(cfg, db, e);
    } else if e.Resend? {
      ResendStepKeepsInv(cfg, db, e);
    } else if (e.DeliverySucceeded? || e.DeliveryFailed?) && e.logId in db.outstanding {
      DeliveryKeepsInv(cfg, db, e.logId);
    } else {
      IdleKeepsInv(cfg, db, Step(cfg, db, e).db);
    }
  }

  /** Hence every reachable state satisfies it. */
  lemma {:induction false} RunKeepsInv(cfg: Config, db: Db, events: seq<Event>)
    requires Inv(cfg, db)
    ensures Inv(cfg, Run(cfg, db, events))
    decreases |events|
  {
    if events != [] {
      StepKeepsInv(cfg, db, events[0]);
      RunKeepsInv(cfg, Step(cfg, db, events[0]).db, events[1..]);
    }
  }
}
