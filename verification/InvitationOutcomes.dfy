/**
 * What each operation of the invitation service answers and leaves, said in terms of the
 * tables alone (src/invitation/invitation.service.ts): every refusal with its condition, and
 * the rows before and after.
 */
module InvitationOutcomes {
  import opened Common
  import opened InvitationTokens
  import opened Invitations

  // --- sends, counted one by one -----------------------------------------------------------

  /** Log rows later than an instant whose send has not failed, of one sender or of everyone. */
  ghost function SendsAfter(log: seq<Send>, who: Option<int>, instant: int): set<nat> {
    set k: nat | k < |log| && IsSendAfter(log[k], who, instant)
  }

  ghost predicate IsSendAfter(send: Send, who: Option<int>, instant: int) {
    send.outcome != Failed && (who == None || who == Some(send.sender)) && send.sentAt > instant
  }

  lemma SendsBefore(log: seq<Send>, who: Option<int>, instant: int)
    requires log != []
    ensures var n := |log| - 1;
      var rest := SendsAfter(log[..n], who, instant);
      && n !in rest
      && SendsAfter(log, who, instant) == if IsSendAfter(log[n], who, instant) then rest + {n} else rest
  {
    var n := |log| - 1;
    forall k: nat ensures k < n ==> (k in SendsAfter(log[..n], who, instant) <==> k in SendsAfter(log, who, instant)) {
      if k < n { assert log[..n][k] == log[k]; }
    }
  }

  lemma {:induction false} SendsAreCounted(log: seq<Send>, who: Option<int>, instant: int)
    ensures CountSince(log, who, instant) == |SendsAfter(log, who, instant)|
  {
    if log == [] {
      assert SendsAfter(log, who, instant) == {};
    } else {
      SendsBefore(log, who, instant);
      SendsAreCounted(log[..|log| - 1], who, instant);
    }
  }

  /** The sender has used up the last 24 hours. */
  ghost predicate DayUsedUp(cfg: Config, db: Db, sender: int) {
    |SendsAfter(db.log, Some(sender), db.now - 86_400_000)| >= cfg.dailyLimit
  }

  /** The cap on everyone's last hour is on and used up. */
  ghost predicate HourUsedUp(cfg: Config, db: Db) {
    cfg.globalHourlyLimit > 0 && |SendsAfter(db.log, None, db.now - 3_600_000)| >= cfg.globalHourlyLimit
  }

  lemma LimitExactly(cfg: Config, db: Db, sender: int)
    ensures SendLimit(cfg, db, sender) ==
      if DayUsedUp(cfg, db, sender) then Some(DailyLimitReached)
      else if HourUsedUp(cfg, db) then Some(HourlyLimitReached) else None
  {
    SendsAreCounted(db.log, Some(sender), db.now - 86_400_000);
    SendsAreCounted(db.log, None, db.now - 3_600_000);
  }

  // --- create, revoke, resend -----------------------------------------------------------------

  /** A PENDING row of the sender for the address, other than one. */
  ghost predicate Waits(db: Db, sender: int, email: string, except: int) {
    exists i :: 0 <= i < |db.rows| && i != except
      && db.rows[i].status == Pending && db.rows[i].sender == sender && db.rows[i].email == email
  }

  /** The tables with one more queued send, of a row that `rows` holds. */
  ghost function WithSend(db: Db, rows: seq<Invitation>, id: nat, sender: int, token: string): Db {
    Db(db.now, rows, db.log + [Send(id, sender, token, db.now, Queued)], db.accounts,
       db.minted + {token}, db.outstanding + {|db.log|})
  }

  /** `create` with a fresh token: refusals in order, or one new row that lives for the configured time. */
  ghost predicate CreateLeaves(
    cfg: Config, before: Db, sender: int, email: string, fieldsOk: bool, token: string, after: Db, reply: Reply)
  {
    if !cfg.enabled then after == before && reply == Unconfigured
    else if !fieldsOk then after == before && reply == BadRequest
    else if email in before.accounts then after == before && reply == AlreadyRegistered
    else if Waits(before, sender, email, -1) then after == before && reply == InvitePending
    else if DayUsedUp(cfg, before, sender) then after == before && reply == DailyLimitReached
    else if HourUsedUp(cfg, before) then after == before && reply == HourlyLimitReached
    else
      var row := Invitation(sender, email, Sha256(token), Pending, before.now, before.now + cfg.ttlMs, None, None, None, None);
      after == WithSend(before, before.rows + [row], |before.rows|, sender, token) && reply == Issued(|before.rows|)
  }

  lemma CreateExactly(cfg: Config, db: Db, sender: int, email: string, fieldsOk: bool, token: string)
    requires Fresh(db, token)
    ensures var r := Step(cfg, db, Create(sender, email, fieldsOk, token));
      CreateLeaves(cfg, db, sender, email, fieldsOk, token, r.db, r.reply)
  {
    LimitExactly(cfg, db, sender);
    PendingExactly(db, sender, email);
  }

  lemma PendingExactly(db: Db, sender: int, email: string)
    ensures HasPending(db.rows, sender, email) <==> Waits(db, sender, email, -1)
  {
    if HasPending(db.rows, sender, email) {
      var i :| 0 <= i < |db.rows| && PendingFor(db.rows[i], sender, email);
      assert db.rows[i].status == Pending;
    }
    if Waits(db, sender, email, -1) {
      var i :| 0 <= i < |db.rows| && db.rows[i].status == Pending && db.rows[i].sender == sender && db.rows[i].email == email;
      assert PendingFor(db.rows[i], sender, email);
    }
  }

  lemma BlocksExactly(db: Db, id: nat)
    requires id < |db.rows|
    ensures IndexBlocks(db.rows, id) <==> Waits(db, db.rows[id].sender, db.rows[id].email, id)
  {
    var sender, email := db.rows[id].sender, db.rows[id].email;
    if IndexBlocks(db.rows, id) {
      var i :| 0 <= i < |db.rows| && i != id && PendingFor(db.rows[i], sender, email);
      assert db.rows[i].status == Pending;
    }
    if Waits(db, sender, email, id) {
      var i :| 0 <= i < |db.rows| && i != id
        && db.rows[i].status == Pending && db.rows[i].sender == sender && db.rows[i].email == email;
      assert PendingFor(db.rows[i], sender, email);
    }
  }

  /** `revoke`: only the sender's own row, only while PENDING, and only its status and withdrawal time change. */
  ghost predicate RevokeLeaves(cfg: Config, before: Db, sender: int, id: int, after: Db, reply: Reply) {
    if !cfg.enabled then after == before && reply == Unconfigured
    else if id < 0 || id >= |before.rows| || before.rows[id].sender != sender then after == before && reply == NotFound
    else if before.rows[id].status != Pending then after == before && reply == NotPending
    else
      && reply == Done && after == before.(rows := after.rows) && |after.rows| == |before.rows|
      && (forall i :: 0 <= i < |before.rows| && i != id ==> after.rows[i] == before.rows[i])
      && after.rows[id] == before.rows[id].(status := Revoked, revokedAt := Some(before.now))
  }

  lemma RevokeExactly(cfg: Config, db: Db, sender: int, id: int)
    ensures var r := Step(cfg, db, Revoke(sender, id)); RevokeLeaves(cfg, db, sender, id, r.db, r.reply)
  {
  }

  /** The last send of the row is too recent, and has not failed. */
  ghost predicate Cooling(cfg: Config, db: Db, id: nat)
    requires id < |db.rows|
  {
    && db.now - db.rows[id].sentAt < cfg.resendCooldownMs
    && forall k :: 0 <= k < |db.log| && db.log[k].invitation == id && (forall j :: k < j < |db.log| ==> db.log[j].invitation != id)
         ==> db.log[k].outcome != Failed
  }

  lemma CoolingExactly(cfg: Config, db: Db, id: nat)
    requires id < |db.rows|
    ensures InCooldown(cfg, db, id) <==> Cooling(cfg, db, id)
  {
    var last := LastSend(db.log, id);
    forall k | 0 <= k < |db.log| && db.log[k].invitation == id && (forall j :: k < j < |db.log| ==> db.log[j].invitation != id)
      ensures k == last
    {
    }
    if last >= 0 { assert forall j :: last < j < |db.log| ==> db.log[j].invitation != id; }
  }

  /** `resend` with a fresh token: refusals in order, the index conflict, or the same row with a new token, time and expiry. */
  ghost predicate ResendLeaves(cfg: Config, before: Db, sender: int, id: int, token: string, after: Db, reply: Reply) {
    if !cfg.enabled then after == before && reply == Unconfigured
    else if id < 0 || id >= |before.rows| || before.rows[id].sender != sender then after == before && reply == NotFound
    else
      var row := before.rows[id];
      if row.status == Accepted || row.status == Revoked then after == before && reply == NotResendable
      else if row.email in before.accounts then after == before && reply == AlreadyRegistered
      else if Cooling(cfg, before, id) then after == before && reply == CoolingDown
      else if DayUsedUp(cfg, before, sender) then after == before && reply == DailyLimitReached
      else if HourUsedUp(cfg, before) then after == before && reply == HourlyLimitReached
      else if Waits(before, sender, row.email, id) then after == before.(minted := before.minted + {token}) && reply == InvitePending
      else
        var reissued := row.(hash := Sha256(token), status := Pending, sentAt := before.now, expiresAt := before.now + cfg.ttlMs);
        after == WithSend(before, before.rows[id := reissued], id, sender, token) && reply == Issued(id)
  }

  lemma ResendExactly(cfg: Config, db: Db, sender: int, id: int, token: string)
    requires Fresh(db, token)
    ensures var r := Step(cfg, db, Resend(sender, id, token)); ResendLeaves(cfg, db, sender, id, token, r.db, r.reply)
  {
    LimitExactly(cfg, db, sender);
    if 0 <= id < |db.rows| {
      CoolingExactly(cfg, db, id);
      BlocksExactly(db, id);
    }
  }

  // --- sweeps, previews and deliveries ----------------------------------------------------------

  /** A sweep expires exactly the PENDING rows in scope whose time is over. */
  ghost predicate SweepLeaves(before: Db, scope: Option<int>, after: Db) {
    && after == before.(rows := after.rows) && |after.rows| == |before.rows|
    && (forall i :: 0 <= i < |before.rows| ==>
          var row := before.rows[i];
          after.rows[i] == if row.status == Pending && row.expiresAt < before.now && (scope == None || scope == Some(row.sender))
                           then row.(status := Expired) else row)
  }

  lemma SweepExactly(cfg: Config, db: Db, scope: Option<int>)
    ensures SweepLeaves(db, scope, Step(cfg, db, SweepExpired(scope)).db)
  {
  }

  lemma MintedIsPlausible(token: string)
    requires IsMintedShape(token)
    ensures IsPlausibleInviteToken(token)
  {
  }

  /** A PENDING row with the token whose time is not over. */
  ghost predicate TokenWaits(db: Db, token: string) {
    exists i :: 0 <= i < |db.rows| && db.rows[i].hash == Sha256(token) && db.rows[i].status == Pending && db.rows[i].expiresAt > db.now
  }

  lemma StoredTokenIsPlausible(cfg: Config, db: Db, i: nat)
    requires Inv(cfg, db) && i < |db.rows|
    ensures IsPlausibleInviteToken(db.rows[i].hash.raw)
  {
    assert RowOk(cfg, db.log, i, db.rows[i]);
    MintedIsPlausible(db.rows[i].hash.raw);
  }

  lemma WaitingTokenIsPlausible(cfg: Config, db: Db, token: string)
    requires Inv(cfg, db) && TokenWaits(db, token)
    ensures IsPlausibleInviteToken(token)
  {
    var i: nat :| i < |db.rows| && db.rows[i].hash == Sha256(token) && db.rows[i].status == Pending && db.rows[i].expiresAt > db.now;
    StoredTokenIsPlausible(cfg, db, i);
  }

  lemma PreviewExactly(cfg: Config, db: Db, token: string)
    requires Inv(cfg, db)
    ensures Step(cfg, db, Preview(token)).reply ==
      if !cfg.enabled then Unconfigured else if TokenWaits(db, token) then Valid else NotFound
  {
    if TokenWaits(db, token) { WaitingTokenIsPlausible(cfg, db, token); }
  }

  /** A delivery closes its log row; a failure expires the row it was for, while that is PENDING with the token sent. */
  ghost predicate DeliveryLeaves(before: Db, k: nat, delivered: bool, after: Db)
    requires k < |before.log|
  {
    var send := before.log[k];
    && after == before.(rows := after.rows, log := after.log, outstanding := before.outstanding - {k})
    && after.log == before.log[k := send.(outcome := if delivered then Sent else Failed)]
    && |after.rows| == |before.rows|
    && (forall i :: 0 <= i < |before.rows| ==>
          var row := before.rows[i];
          after.rows[i] == if !delivered && i == send.invitation && row.status == Pending && row.hash == Sha256(send.token)
                           then row.(status := Expired) else row)
  }

  lemma DeliveryExactly(cfg: Config, db: Db, k: nat)
    requires k in db.outstanding && k < |db.log|
    ensures DeliveryLeaves(db, k, true, Step(cfg, db, DeliverySucceeded(k)).db)
    ensures DeliveryLeaves(db, k, false, Step(cfg, db, DeliveryFailed(k)).db)
  {
    DeliverySteps(cfg, db, k);
  }

  // --- conversions -------------------------------------------------------------------------------

  /** The row as a conversion leaves it. */
  ghost function ByWay(row: Invitation, via: Via, now: int, user: int): Invitation {
    Invitation(row.sender, row.email, row.hash, Accepted, row.sentAt, row.expiresAt, Some(via), Some(now), Some(user), row.revokedAt)
  }

  /** Exactly the PENDING rows with the token whose time is not over are converted, and counted. */
  ghost predicate TokenConverts(before: Db, token: string, user: int, after: Db, count: nat) {
    && after == before.(rows := after.rows) && |after.rows| == |before.rows|
    && (forall i :: 0 <= i < |before.rows| ==>
          var row := before.rows[i];
          after.rows[i] == if row.hash == Sha256(token) && row.status == Pending && row.expiresAt > before.now
                           then ByWay(row, ViaToken, before.now, user) else row)
    && count == |set i: nat | i < |before.rows| && before.rows[i].hash == Sha256(token)
                  && before.rows[i].status == Pending && before.rows[i].expiresAt > before.now|
  }

  /** Exactly the PENDING rows for the address whose time is not over are converted, and counted. */
  ghost predicate EmailConverts(before: Db, email: string, user: int, after: Db, count: nat) {
    && after == before.(rows := after.rows) && |after.rows| == |before.rows|
    && (forall i :: 0 <= i < |before.rows| ==>
          var row := before.rows[i];
          after.rows[i] == if row.email == email && row.status == Pending && row.expiresAt > before.now
                           then ByWay(row, ViaEmail, before.now, user) else row)
    && count == |set i: nat | i < |before.rows| && before.rows[i].email == email
                  && before.rows[i].status == Pending && before.rows[i].expiresAt > before.now|
  }

  lemma TokenConvertsExactly(cfg: Config, db: Db, token: string, user: int)
    ensures var r := Step(cfg, db, AcceptByToken(token, user));
      r.reply.Changed? && TokenConverts(db, token, user, r.db, r.reply.count)
  {
    assert TokenMatches(db, token) == set i: nat | i < |db.rows|
      && db.rows[i].hash == Sha256(token) && db.rows[i].status == Pending && db.rows[i].expiresAt > db.now;
  }

  lemma EmailConvertsExactly(cfg: Config, db: Db, email: string, user: int)
    ensures var r := Step(cfg, db, AcceptByEmail(email, user));
      r.reply.Changed? && EmailConverts(db, email, user, r.db, r.reply.count)
  {
    assert EmailMatches(db, email) == set i: nat | i < |db.rows|
      && db.rows[i].email == email && db.rows[i].status == Pending && db.rows[i].expiresAt > db.now;
  }

  /**
   * The registration of an account: rows with its token convert by token, and if the address is
   * verified its other rows convert by email. Whether the token is plausible makes no difference.
   */
  ghost predicate RegistrationConverts(before: Db, user: int, token: string, email: string, verified: bool, after: Db) {
    && after == before.(rows := after.rows) && |after.rows| == |before.rows|
    && (forall i :: 0 <= i < |before.rows| ==>
          var row := before.rows[i];
          var waits := row.status == Pending && row.expiresAt > before.now;
          after.rows[i] == if waits && row.hash == Sha256(token) then ByWay(row, ViaToken, before.now, user)
                           else if waits && verified && row.email == email then ByWay(row, ViaEmail, before.now, user)
                           else row)
  }

  lemma RegistrationExactly(cfg: Config, db: Db, user: int, token: string, email: string, verified: bool)
    requires Inv(cfg, db)
    ensures var byToken := if IsPlausibleInviteToken(token) then Step(cfg, db, AcceptByToken(token, user)).db else db;
      RegistrationConverts(db, user, token, email, verified,
                           if verified then Step(cfg, byToken, AcceptByEmail(email, user)).db else byToken)
  {
    var byToken := if IsPlausibleInviteToken(token) then Step(cfg, db, AcceptByToken(token, user)).db else db;
    TokenConvertsExactly(cfg, db, token, user);
    EmailConvertsExactly(cfg, byToken, email, user);
    if !IsPlausibleInviteToken(token) {
      forall i | 0 <= i < |db.rows| ensures db.rows[i].hash != Sha256(token) { StoredTokenIsPlausible(cfg, db, i); }
    }
  }
}
