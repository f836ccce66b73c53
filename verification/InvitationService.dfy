/**
 * The service itself: its tables are fields that the methods reassign. Every
 * method is proved to make exactly the step of `Invitations.Step`, and to keep
 * the run invariant.
 */
module InvitationServices {
  import opened Common
  import opened InvitationTokens
  import opened Invitations
  import opened InvitationRuns
  import opened InvitationOutcomes

  lemma SelectToken(cfg: Config, db: Db, ids: set<nat>, token: string, user: int)
    requires forall i :: i in ids <==> i in TokenMatches(db, token)
    ensures ids == TokenMatches(db, token)
    ensures Step(cfg, db, AcceptByToken(token, user)) == Result(ConvertAll(db, ids, ViaToken, user), Changed(|ids|))
    ensures !TokenLive(ConvertAll(db, ids, ViaToken, user), token)
  {
    assert ids == TokenMatches(db, token);
    ConvertedTokenIsDead(db, token, user);
  }

  lemma SelectEmail(cfg: Config, db: Db, ids: set<nat>, email: string, user: int)
    requires forall i :: i in ids <==> i in EmailMatches(db, email)
    ensures Step(cfg, db, AcceptByEmail(email, user)) == Result(ConvertAll(db, ids, ViaEmail, user), Changed(|ids|))
  {
    assert ids == EmailMatches(db, email);
  }

  function DeliveryEvent(logId: nat, delivered: bool): Event {
    if delivered then DeliverySucceeded(logId) else DeliveryFailed(logId)
  }

  lemma CreatedTokenLives(cfg: Config, db: Db, sender: int, email: string, fieldsOk: bool, token: string)
    requires Inv(cfg, db)
    ensures var r := Step(cfg, db, Event.Create(sender, email, fieldsOk, token));
      r.reply.Issued? ==> !HasPending(db.rows, sender, email) && (TokenLive(r.db, token) <==> cfg.ttlMs > 0)
  {
    var r := Step(cfg, db, Event.Create(sender, email, fieldsOk, token));
    if r.reply.Issued? {
      var id := |db.rows|;
      assert r.db.rows[id] == NewRow(cfg, db.now, sender, email, token);
      forall i | 0 <= i < id ensures r.db.rows[i].hash != Sha256(token) { TokenNamesOneRow(cfg, db, i, i); }
    }
  }

  lemma RevokedTokenIsDead(cfg: Config, db: Db, sender: int, id: int)
    requires Inv(cfg, db)
    ensures var r := Step(cfg, db, Event.Revoke(sender, id));
      r.reply == Done ==> 0 <= id < |r.db.rows| && !TokenLive(r.db, r.db.rows[id].hash.raw)
  {
    var r := Step(cfg, db, Event.Revoke(sender, id));
    if r.reply == Done {
      forall i | 0 <= i < |r.db.rows| && r.db.rows[i].hash == r.db.rows[id].hash ensures i == id {
        TokenNamesOneRow(cfg, db, i, id);
      }
    }
  }

  lemma ResentTokenIsDead(cfg: Config, db: Db, sender: int, id: int, token: string)
    requires Inv(cfg, db)
    ensures var r := Step(cfg, db, Event.Resend(sender, id, token));
      r.reply.Issued? ==> 0 <= id < |db.rows| && !TokenLive(r.db, db.rows[id].hash.raw)
  {
    if Step(cfg, db, Event.Resend(sender, id, token)).reply.Issued? { ResendKillsToken(cfg, db, sender, id, token); }
  }

  lemma DeliveryRows(cfg: Config, db: Db, k: nat, delivered: bool)
    requires Inv(cfg, db) && k in db.outstanding
    ensures var rows := Step(cfg, db, DeliveryEvent(k, delivered)).db.rows;
      |rows| == |db.rows| && forall id: nat :: id < |rows| && rows[id] != db.rows[id] ==>
        !delivered && k == LastSend(db.log, id) && rows[id] == db.rows[id].(status := Expired)
  {
    forall id: nat | id < |db.rows|
      ensures var rows := Step(cfg, db, DeliveryEvent(k, delivered)).db.rows;
        |rows| == |db.rows| && (rows[id] != db.rows[id] ==>
          !delivered && k == LastSend(db.log, id) && rows[id] == db.rows[id].(status := Expired))
    {
      DeliveryTouchesOnlyItsSend(cfg, db, k, id);
    }
  }

  class InvitationService {
    const config: Config
    var now: int
    var rows: seq<Invitation>
    var log: seq<Send>
    var accounts: set<string>
    var outstanding: set<nat>
    ghost var minted: set<string>

    ghost function View(): Db
      reads this
    {
      Db(now, rows, log, accounts, minted, outstanding)
    }

    ghost predicate Valid()
      reads this
    {
      Inv(config, View())
    }

    constructor (config: Config, start: int)
      ensures Valid() && this.config == config && View() == Init(start)
    {
      this.config, now := config, start;
      rows, log, accounts, outstanding, minted := [], [], {}, {}, {};
    }

    /**
     * `enforceSendLimits`: a refusal names a rolling window that is full, and without one
     * any further send keeps every window within its limit.
     */
    method EnforceSendLimits(sender: int) returns (refusal: Option<Reply>)
      requires Valid()
      ensures refusal == SendLimit(config, View(), sender)
      ensures refusal == if DayUsedUp(config, View(), sender) then Some(DailyLimitReached)
                         else if HourUsedUp(config, View()) then Some(HourlyLimitReached) else None
      ensures refusal == Some(DailyLimitReached) <==> DayIsFull(config, View(), sender)
      ensures refusal == Some(HourlyLimitReached) <==> !DayIsFull(config, View(), sender) && HourIsFull(config, View())
      ensures refusal.None? ==> forall id: nat, token: string :: LimitInv(config, Record(View(), id, sender, token).log)
    {
      RefusesExactlyWhenFull(config, View(), sender);
      LimitExactly(config, View(), sender);
      var daily := CountSince(log, Some(sender), now - DAY_MS);
      if daily >= config.dailyLimit { return Some(DailyLimitReached); }
      if config.globalHourlyLimit > 0 {
        var hourly := CountSince(log, None, now - HOUR_MS);
        if hourly >= config.globalHourlyLimit { return Some(HourlyLimitReached); }
      }
      return None;
    }

    /** The log row of the transaction, then the queued delivery. */
    method QueueDelivery(id: nat, sender: int, token: string)
      modifies this
      ensures View() == Record(old(View()), id, sender, token)
    {
      outstanding := outstanding + {|log|};
      log := log + [Send(id, sender, token, now, Queued)];
      minted := minted + {token};
    }

    method Create(sender: int, email: string, fieldsOk: bool, token: string) returns (reply: Reply)
      requires Valid() && Fresh(View(), token)
      modifies this
      ensures Valid()
      ensures Result(View(), reply) == Step(config, old(View()), Event.Create(sender, email, fieldsOk, token))
      ensures CreateLeaves(config, old(View()), sender, email, fieldsOk, token, View(), reply)
      ensures reply.Issued? ==> !HasPending(old(rows), sender, email) && (TokenLive(View(), token) <==> config.ttlMs > 0)
    {
      StepKeepsInv(config, View(), Event.Create(sender, email, fieldsOk, token));
      CreateExactly(config, View(), sender, email, fieldsOk, token);
      CreatedTokenLives(config, View(), sender, email, fieldsOk, token);
      if !config.enabled { return Unconfigured; }
      if !fieldsOk { return BadRequest; }
      if email in accounts { return AlreadyRegistered; }
      if HasPending(rows, sender, email) { return InvitePending; }
      var refusal := EnforceSendLimits(sender);
      if refusal.Some? { return refusal.value; }
      var id := |rows|;
      rows := rows + [NewRow(config, now, sender, email, token)];
      QueueDelivery(id, sender, token);
      return Issued(id);
    }

    method Revoke(sender: int, id: int) returns (reply: Reply)
      requires Valid()
      modifies this`rows
      ensures Valid()
      ensures Result(View(), reply) == Step(config, old(View()), Event.Revoke(sender, id))
      ensures RevokeLeaves(config, old(View()), sender, id, View(), reply)
      ensures reply == Done ==> 0 <= id < |rows| && !TokenLive(View(), rows[id].hash.raw)
    {
      StepKeepsInv(config, View(), Event.Revoke(sender, id));
      RevokeExactly(config, View(), sender, id);
      if !config.enabled { return Unconfigured; }
      if !(0 <= id < |rows| && rows[id].sender == sender) { return NotFound; }
      if rows[id].status != Pending { return NotPending; }
      rows := rows[id := rows[id].(status := Revoked, revokedAt := Some(now))];
      RevokedTokenIsDead(config, old(View()), sender, id);
      return Done;
    }

    method Resend(sender: int, id: int, token: string) returns (reply: Reply)
      requires Valid() && Fresh(View(), token)
      modifies this
      ensures Valid()
      ensures Result(View(), reply) == Step(config, old(View()), Event.Resend(sender, id, token))
      ensures ResendLeaves(config, old(View()), sender, id, token, View(), reply)
      ensures reply.Issued? ==> 0 <= id < |old(rows)| && !TokenLive(View(), old(rows)[id].hash.raw)
    {
      var refusal := CheckResend(sender, id);
      ResendStepCases(config, View(), sender, id, token);
      ResendExactly(config, View(), sender, id, token);
      StepKeepsInv(config, View(), Event.Resend(sender, id, token));
      if refusal.Some? { return refusal.value; }
      if IndexBlocks(rows, id) {
        minted := minted + {token};
        return InvitePending;
      }
      rows := rows[id := Reissued(config, rows[id], now, token)];
      QueueDelivery(id, sender, token);
      ResentTokenIsDead(config, old(View()), sender, id, token);
      return Issued(id);
    }

    /** The checks of `resend` before its transaction, in order. */
    method CheckResend(sender: int, id: int) returns (refusal: Option<Reply>)
      requires Valid()
      ensures refusal == ResendRefusal(config, View(), sender, id)
      ensures refusal.None? ==> Owned(View(), sender, id) && rows[id].email !in accounts && CooledDown(config, View(), id)
    {
      if !config.enabled { return Some(Unconfigured); }
      if !(0 <= id < |rows| && rows[id].sender == sender) { return Some(NotFound); }
      var row := rows[id];
      if row.status == Accepted || row.status == Revoked { return Some(NotResendable); }
      if row.email in accounts { return Some(AlreadyRegistered); }
      var lastSend := LastSend(log, id);
      assert RowOk(config, log, id, row);
      if (lastSend < 0 || log[lastSend].outcome != Failed) && now - row.sentAt < config.resendCooldownMs {
        return Some(CoolingDown);
      }
      refusal := EnforceSendLimits(sender);
    }

    /** `sweepExpired`, which `list` and `stats` run for the caller before they read. */
    method Sweep(scope: Option<int>)
      requires Valid()
      modifies this`rows
      ensures Valid() && View() == Step(config, old(View()), SweepExpired(scope)).db
      ensures SweepLeaves(old(View()), scope, View())
    {
      SweepExactly(config, View(), scope);
      StepKeepsInv(config, View(), SweepExpired(scope));
      ghost var next := Swept(View(), scope);
      var before, at := rows, now;
      rows := seq(|before|, i requires 0 <= i < |before| => SweptRow(before[i], at, scope));
      assert rows == next.rows;
      assert View() == next;
    }

    method Preview(token: string) returns (reply: Reply)
      requires Valid()
      ensures reply == Step(config, View(), Event.Preview(token)).reply
      ensures reply == if !config.enabled then Unconfigured else if TokenWaits(View(), token) then Reply.Valid else NotFound
      ensures reply == Reply.Valid <==> config.enabled && |TokenMatches(View(), token)| == 1
      ensures reply == NotFound <==> config.enabled && |TokenMatches(View(), token)| == 0
    {
      TokenMatchCount(config, View(), token);
      PreviewSeesLiveTokens(config, View(), token);
      PreviewExactly(config, View(), token);
      if !config.enabled { return Unconfigured; }
      if !IsPlausibleInviteToken(token) { return NotFound; }
      if exists i :: 0 <= i < |rows| && rows[i].hash == Sha256(token)
                     && rows[i].status == Pending && rows[i].expiresAt > now {
        return Reply.Valid;
      }
      return NotFound;
    }

    /** The outcome of the provider call: `delivered` or a synchronous failure. */
    method Deliver(logId: nat, delivered: bool)
      requires Valid() && logId in outstanding
      modifies this
      ensures Valid() && logId < |old(log)| && DeliveryLeaves(old(View()), logId, delivered, View())
      ensures View() == Step(config, old(View()), DeliveryEvent(logId, delivered)).db
      ensures |rows| == |old(rows)| && forall id: nat :: id < |rows| && rows[id] != old(rows)[id] ==>
        !delivered && logId == LastSend(old(log), id) && rows[id] == old(rows)[id].(status := Expired)
    {
      DeliveryRows(config, View(), logId, delivered);
      OutstandingIsLogged(config, View(), logId);
      DeliverySteps(config, View(), logId);
      DeliveryExactly(config, View(), logId);
      StepKeepsInv(config, View(), DeliveryEvent(logId, delivered));
      var send := log[logId];
      if delivered {
        LogResult(logId, Sent);
      } else {
        LogResult(logId, Failed);
        ExpireRow(send.invitation, send.token);
      }
    }

    method LogResult(logId: nat, outcome: Outcome)
      requires logId < |log|
      modifies this`log, this`outstanding
      ensures View() == LogOutcome(old(View()), logId, outcome)
    {
      log := log[logId := log[logId].(outcome := outcome)];
      outstanding := outstanding - {logId};
    }

    /** The conditional update after a failed delivery. */
    method ExpireRow(id: nat, token: string)
      modifies this`rows
      ensures View() == ExpireSend(old(View()), id, token)
    {
      if id < |rows| && rows[id].status == Pending && rows[id].hash == Sha256(token) {
        rows := rows[id := rows[id].(status := Expired)];
      } else {
        assert id < |rows| ==> rows == rows[id := rows[id]];
      }
    }

    /** The conditional `updateMany` of a conversion, on the rows it selected. */
    method ConvertRows(ids: set<nat>, via: Via, user: int)
      modifies this`rows
      ensures View() == ConvertAll(old(View()), ids, via, user)
    {
      var before, at := rows, now;
      rows := seq(|before|, i requires 0 <= i < |before| =>
        if i in ids then Converted(before[i], via, at, user) else before[i]);
      assert rows == ConvertAll(old(View()), ids, via, user).rows;
    }

    method AcceptByToken(token: string, user: int) returns (count: nat)
      requires Valid()
      modifies this`rows
      ensures Valid()
      ensures Result(View(), Changed(count)) == Step(config, old(View()), Event.AcceptByToken(token, user))
      ensures TokenConverts(old(View()), token, user, View(), count)
      ensures count == (if TokenLive(old(View()), token) then 1 else 0) && !TokenLive(View(), token)
    {
      var ids := set i: nat | i < |rows| && rows[i].hash == Sha256(token)
                              && rows[i].status == Pending && rows[i].expiresAt > now;
      SelectToken(config, View(), ids, token, user);
      StepKeepsInv(config, View(), Event.AcceptByToken(token, user));
      TokenMatchCount(config, View(), token);
      TokenConvertsExactly(config, View(), token, user);
      ConvertRows(ids, ViaToken, user);
      return |ids|;
    }

    method AcceptByEmail(email: string, user: int) returns (count: nat)
      requires Valid()
      modifies this`rows
      ensures Valid()
      ensures Result(View(), Changed(count)) == Step(config, old(View()), Event.AcceptByEmail(email, user))
      ensures EmailConverts(old(View()), email, user, View(), count)
      ensures forall i :: 0 <= i < |rows| && rows[i].email == email ==> !Live(rows[i], now)
    {
      var ids := set i: nat | i < |rows| && rows[i].email == email
                              && rows[i].status == Pending && rows[i].expiresAt > now;
      StepKeepsInv(config, View(), Event.AcceptByEmail(email, user));
      SelectEmail(config, View(), ids, email, user);
      EmailConvertsExactly(config, View(), email, user);
      ConvertRows(ids, ViaEmail, user);
      return |ids|;
    }

    /**
     * `handleUserRegistered` run without interruption: the carried token first,
     * then the address if its account is already verified. No row converts twice.
     */
    method HandleUserRegistered(user: int, inviteToken: string, email: string, verified: bool)
      requires Valid()
      modifies this`rows
      ensures Valid()
      ensures var byToken := if IsPlausibleInviteToken(inviteToken)
                             then Step(config, old(View()), Event.AcceptByToken(inviteToken, user)).db else old(View());
              View() == if verified then Step(config, byToken, Event.AcceptByEmail(email, user)).db else byToken
      ensures RegistrationConverts(old(View()), user, inviteToken, email, verified, View())
    {
      RegistrationExactly(config, View(), user, inviteToken, email, verified);
      if IsPlausibleInviteToken(inviteToken) {
        var byToken := AcceptByToken(inviteToken, user);
      }
      if verified {
        var byEmail := AcceptByEmail(email, user);
      }
    }
  }
}
