/** What every run of the invitation lifecycle guarantees. */
module InvitationRuns {
  import opened Common
  import opened InvitationTokens
  import opened Invitations

  // ---------------------------------------------------------------------
  // Limits
  // ---------------------------------------------------------------------

  lemma ReachableInv(cfg: Config, start: int, events: seq<Event>)
    ensures Inv(cfg, Run(cfg, Init(start), events))
  {
    RunKeepsInv(cfg, Init(start), events);
  }

  /**
   * Counting only sends that have not failed: any rolling day of any sender, any
   * rolling hour of everyone, and any two sends of one invitation, in every
   * reachable state. Only the earlier send of the pair must not have failed.
   */
  lemma SendLimitsHold(cfg: Config, start: int, events: seq<Event>)
    ensures var log := Run(cfg, Init(start), events).log;
      && (forall sender: int, at: int :: CountWindow(log, Some(sender), at, DAY_MS) <= cfg.dailyLimit)
      && (cfg.globalHourlyLimit > 0 ==>
            forall at: int :: CountWindow(log, None, at, HOUR_MS) <= cfg.globalHourlyLimit)
      && (forall i, j :: 0 <= i < j < |log| && log[i].invitation == log[j].invitation && log[i].outcome != Failed
            ==> log[j].sentAt - log[i].sentAt >= cfg.resendCooldownMs)
  {
    ReachableInv(cfg, start, events);
  }

  // ---------------------------------------------------------------------
  // Tokens
  // ---------------------------------------------------------------------

  predicate TokenLive(db: Db, token: string) {
    exists i :: 0 <= i < |db.rows| && db.rows[i].hash == Sha256(token) && Live(db.rows[i], db.now)
  }

  /** A token names at most one row, and a row's token has been minted. */
  lemma TokenNamesOneRow(cfg: Config, db: Db, i: nat, j: nat)
    requires Inv(cfg, db) && i < |db.rows| && j < |db.rows| && db.rows[i].hash == db.rows[j].hash
    ensures i == j && db.rows[i].hash.raw in db.minted && IsMintedShape(db.rows[i].hash.raw)
  {
    assert RowOk(cfg, db.log, i, db.rows[i]) && RowOk(cfg, db.log, j, db.rows[j]);
  }

  /** An acceptance by token changes one row if the token is live and none otherwise. */
  lemma TokenMatchCount(cfg: Config, db: Db, token: string)
    requires Inv(cfg, db)
    ensures |TokenMatches(db, token)| == if TokenLive(db, token) then 1 else 0
  {
    var ids := TokenMatches(db, token);
    if TokenLive(db, token) {
      var i: nat :| i < |db.rows| && db.rows[i].hash == Sha256(token) && Live(db.rows[i], db.now);
      forall j | j in ids ensures j == i { TokenNamesOneRow(cfg, db, i, j); }
      assert ids == {i};
    } else {
      assert ids == {};
    }
  }

  lemma PreviewSeesLiveTokens(cfg: Config, db: Db, token: string)
    requires Inv(cfg, db)
    ensures PreviewOk(db, token) <==> TokenLive(db, token)
  {
    if TokenLive(db, token) {
      var i: nat :| i < |db.rows| && db.rows[i].hash == Sha256(token) && Live(db.rows[i], db.now);
      TokenNamesOneRow(cfg, db, i, i);
    }
  }

  /** `preview` answers at an instant exactly when `acceptByToken` would change one row then. */
  lemma PreviewIffConvertible(cfg: Config, db: Db, token: string, user: int)
    requires Inv(cfg, db) && cfg.enabled
    ensures Step(cfg, db, Preview(token)).reply == Valid
       <==> Step(cfg, db, AcceptByToken(token, user)).reply == Changed(1)
    ensures Step(cfg, db, Preview(token)).reply == NotFound
       <==> Step(cfg, db, AcceptByToken(token, user)).reply == Changed(0)
  {
    TokenMatchCount(cfg, db, token);
    PreviewSeesLiveTokens(cfg, db, token);
  }

  /** No step revives a minted token: only a fresh one ever becomes live. */
  lemma DeadTokenStaysDead(cfg: Config, db: Db, e: Event, token: string)
    requires Inv(cfg, db) && token in db.minted && !TokenLive(db, token)
    ensures token in Step(cfg, db, e).db.minted && !TokenLive(Step(cfg, db, e).db, token)
  {
    var after := Step(cfg, db, e).db;
    forall i | 0 <= i < |after.rows| && after.rows[i].hash == Sha256(token)
      ensures !Live(after.rows[i], after.now)
    {
      OldTokenOldRow(cfg, db, e, i);
      assert !Live(db.rows[i], db.now);
    }
  }

  /** A step leaves a row with an old token only where it was, and never revives it. */
  lemma OldTokenOldRow(cfg: Config, db: Db, e: Event, i: nat)
    requires i < |Step(cfg, db, e).db.rows| && Step(cfg, db, e).db.rows[i].hash.raw in db.minted
    ensures i < |db.rows| && db.rows[i].hash == Step(cfg, db, e).db.rows[i].hash
    ensures Live(Step(cfg, db, e).db.rows[i], Step(cfg, db, e).db.now) ==> Live(db.rows[i], db.now)
  {
  }

  /** Rows converted by presenting one token, over a whole run. */
  function Conversions(cfg: Config, db: Db, events: seq<Event>, token: string): nat
    decreases |events|
  {
    if events == [] then 0
    else
      (if events[0].AcceptByToken? && events[0].token == token then |TokenMatches(db, token)| else 0)
      + Conversions(cfg, Step(cfg, db, events[0]).db, events[1..], token)
  }

  lemma {:induction false} DeadTokenNeverConverts(cfg: Config, db: Db, events: seq<Event>, token: string)
    requires Inv(cfg, db) && token in db.minted && !TokenLive(db, token)
    ensures Conversions(cfg, db, events, token) == 0
    ensures !TokenLive(Run(cfg, db, events), token)
    decreases |events|
  {
    if events != [] {
      TokenMatchCount(cfg, db, token);
      StepKeepsInv(cfg, db, events[0]);
      DeadTokenStaysDead(cfg, db, events[0], token);
      DeadTokenNeverConverts(cfg, Step(cfg, db, events[0]).db, events[1..], token);
    }
  }

  /** Converting the matching rows leaves no live row with the token. */
  lemma ConvertedTokenIsDead(db: Db, token: string, user: int)
    ensures !TokenLive(ConvertAll(db, TokenMatches(db, token), ViaToken, user), token)
  {
    var ids := TokenMatches(db, token);
    var after := ConvertAll(db, ids, ViaToken, user);
    forall j | 0 <= j < |after.rows| && after.rows[j].hash == Sha256(token) ensures !Live(after.rows[j], after.now) {
      assert j in ids <==> Live(db.rows[j], db.now);
    }
  }

  lemma ConversionKillsToken(cfg: Config, db: Db, token: string, user: int)
    requires Inv(cfg, db) && TokenLive(db, token)
    ensures var after := Step(cfg, db, AcceptByToken(token, user)).db;
            token in after.minted && !TokenLive(after, token)
  {
    LiveTokenIsMinted(cfg, db, token);
    AcceptanceKillsToken(cfg, db, token, user);
  }

  lemma AcceptanceKillsToken(cfg: Config, db: Db, token: string, user: int)
    ensures var after := Step(cfg, db, AcceptByToken(token, user)).db;
            after.minted == db.minted && !TokenLive(after, token)
  {
    ConvertedTokenIsDead(db, token, user);
  }

  lemma LiveTokenIsMinted(cfg: Config, db: Db, token: string)
    requires Inv(cfg, db) && TokenLive(db, token)
    ensures token in db.minted
  {
    var i: nat :| i < |db.rows| && db.rows[i].hash == Sha256(token) && Live(db.rows[i], db.now);
    TokenNamesOneRow(cfg, db, i, i);
  }

  /** A token converts at most one row, at most once, in any run. */
  lemma {:induction false} TokenConvertsOnce(cfg: Config, db: Db, events: seq<Event>, token: string)
    requires Inv(cfg, db)
    ensures Conversions(cfg, db, events, token) <= 1
    decreases |events|
  {
    if events != [] {
      var e := events[0];
      TokenMatchCount(cfg, db, token);
      StepKeepsInv(cfg, db, e);
      if e.AcceptByToken? && e.token == token && TokenLive(db, token) {
        ConversionKillsToken(cfg, db, token, e.user);
        DeadTokenNeverConverts(cfg, Step(cfg, db, e).db, events[1..], token);
      } else {
        TokenConvertsOnce(cfg, Step(cfg, db, e).db, events[1..], token);
      }
    }
  }

  /** A resend stops the earlier token for good: it neither previews nor converts again. */
  lemma ResendRetiresToken(cfg: Config, db: Db, sender: int, id: int, token: string, later: seq<Event>)
    requires Inv(cfg, db)
    requires Step(cfg, db, Resend(sender, id, token)).reply.Issued?
    ensures var earlier := db.rows[id].hash.raw;
            var after := Step(cfg, db, Resend(sender, id, token)).db;
            Conversions(cfg, after, later, earlier) == 0 && !TokenLive(Run(cfg, after, later), earlier)
  {
    var after := Step(cfg, db, Resend(sender, id, token)).db;
    StepKeepsInv(cfg, db, Resend(sender, id, token));
    ResendKillsToken(cfg, db, sender, id, token);
    DeadTokenNeverConverts(cfg, after, later, db.rows[id].hash.raw);
  }

  lemma ResendKillsToken(cfg: Config, db: Db, sender: int, id: int, token: string)
    requires Inv(cfg, db) && Step(cfg, db, Resend(sender, id, token)).reply.Issued?
    ensures var after := Step(cfg, db, Resend(sender, id, token)).db;
            db.rows[id].hash.raw in after.minted && !TokenLive(after, db.rows[id].hash.raw)
  {
    var after := Step(cfg, db, Resend(sender, id, token)).db;
    TokenNamesOneRow(cfg, db, id, id);
    forall j | 0 <= j < |after.rows| ensures after.rows[j].hash != db.rows[id].hash {
      if j != id && db.rows[j].hash == db.rows[id].hash { TokenNamesOneRow(cfg, db, id, j); }
    }
  }

  // ---------------------------------------------------------------------
  // Deliveries
  // ---------------------------------------------------------------------

  /** At most one outstanding delivery carries a row's current token: its newest send. */
  lemma CurrentTokenIsNewestSend(cfg: Config, db: Db, id: nat, k: nat)
    requires Inv(cfg, db) && id < |db.rows| && k in db.outstanding
    ensures db.rows[id].hash == Sha256(db.log[k].token) <==> k == LastSend(db.log, id)
  {
    assert RowOk(cfg, db.log, id, db.rows[id]);
  }

  /**
   * A failed delivery changes at most one row, and that row only while it is
   * PENDING on the very send that failed; it becomes EXPIRED. A successful one
   * changes none.
   */
  lemma DeliveryTouchesOnlyItsSend(cfg: Config, db: Db, k: nat, id: nat)
    requires Inv(cfg, db) && id < |db.rows|
    ensures Step(cfg, db, DeliverySucceeded(k)).db.rows == db.rows
    ensures var after := Step(cfg, db, DeliveryFailed(k)).db.rows;
      && |after| == |db.rows|
      && (after[id] != db.rows[id] <==>
            k in db.outstanding && k == LastSend(db.log, id) && db.rows[id].status == Pending)
      && (after[id] != db.rows[id] ==> after[id] == db.rows[id].(status := Expired))
  {
    assert RowOk(cfg, db.log, id, db.rows[id]);
    if k in db.outstanding { CurrentTokenIsNewestSend(cfg, db, id, k); }
  }

  // ---------------------------------------------------------------------
  // Conversions and accounts
  // ---------------------------------------------------------------------

  /** A recorded conversion, and a withdrawal, are never altered. */
  lemma {:induction false} ClosedRowsAreFrozen(cfg: Config, db: Db, events: seq<Event>, id: nat)
    requires id < |db.rows| && (db.rows[id].status == Accepted || db.rows[id].status == Revoked)
    ensures id < |Run(cfg, db, events).rows| && Run(cfg, db, events).rows[id] == db.rows[id]
    decreases |events|
  {
    if events != [] {
      ClosedRowsAreFrozen(cfg, Step(cfg, db, events[0]).db, events[1..], id);
    }
  }

  /** Once an address has an account, no row addressed to it becomes PENDING. */
  lemma RegisteredPendingShrinks(cfg: Config, db: Db, e: Event, i: nat)
    requires i < |Step(cfg, db, e).db.rows| && Step(cfg, db, e).db.rows[i].status == Pending
    requires Step(cfg, db, e).db.rows[i].email in db.accounts
    ensures i < |db.rows| && db.rows[i] == Step(cfg, db, e).db.rows[i]
    ensures db.accounts <= Step(cfg, db, e).db.accounts
  {
  }

  predicate AddressHandled(db: Db, email: string) {
    email in db.accounts && forall i :: 0 <= i < |db.rows| && db.rows[i].email == email ==> !Live(db.rows[i], db.now)
  }

  lemma AcceptByEmailHandles(cfg: Config, db: Db, email: string, user: int)
    requires email in db.accounts
    ensures AddressHandled(Step(cfg, db, AcceptByEmail(email, user)).db, email)
  {
  }

  lemma HandledStaysHandled(cfg: Config, db: Db, e: Event, email: string)
    requires AddressHandled(db, email)
    ensures AddressHandled(Step(cfg, db, e).db, email)
  {
    var after := Step(cfg, db, e).db;
    forall i | 0 <= i < |after.rows| && after.rows[i].email == email ensures !Live(after.rows[i], after.now) {
      if after.rows[i].status == Pending { RegisteredPendingShrinks(cfg, db, e, i); }
    }
  }

  /**
   * Replaying the registration and verification events converts nothing more
   * for a handled address, by token or by email, in any run.
   */
  lemma {:induction false} HandledAddressGainsNothing(cfg: Config, db: Db, events: seq<Event>, email: string, id: nat)
    requires AddressHandled(db, email) && id < |db.rows| && db.rows[id].email == email
    ensures id < |Run(cfg, db, events).rows|
    ensures Run(cfg, db, events).rows[id].status == Accepted <==> db.rows[id].status == Accepted
    decreases |events|
  {
    if events != [] {
      HandledStaysHandled(cfg, db, events[0], email);
      HandledRowKeepsStatus(cfg, db, events[0], email, id);
      HandledAddressGainsNothing(cfg, Step(cfg, db, events[0]).db, events[1..], email, id);
    }
  }

  lemma HandledRowKeepsStatus(cfg: Config, db: Db, e: Event, email: string, id: nat)
    requires AddressHandled(db, email) && id < |db.rows| && db.rows[id].email == email
    ensures var rows := Step(cfg, db, e).db.rows;
      && id < |rows| && rows[id].email == email
      && (rows[id].status == Accepted <==> db.rows[id].status == Accepted)
  {
  }

  /** No row from position `n` on is addressed to `email`. */
  ghost predicate NoRowsFrom(db: Db, n: nat, email: string) {
    forall i :: n <= i < |db.rows| ==> db.rows[i].email != email
  }

  lemma StepAddsNoRowFor(cfg: Config, db: Db, e: Event, n: nat, email: string)
    requires email in db.accounts && n <= |db.rows| && NoRowsFrom(db, n, email)
    ensures var after := Step(cfg, db, e).db;
      email in after.accounts && n <= |after.rows| && NoRowsFrom(after, n, email)
  {
  }

  /** Nor does an address with an account ever get another row, in any run. */
  lemma {:induction false} RegisteredAddressGetsNoRow(cfg: Config, db: Db, events: seq<Event>, n: nat, email: string)
    requires email in db.accounts && n <= |db.rows| && NoRowsFrom(db, n, email)
    ensures n <= |Run(cfg, db, events).rows| && NoRowsFrom(Run(cfg, db, events), n, email)
    decreases |events|
  {
    if events != [] {
      StepAddsNoRowFor(cfg, db, events[0], n, email);
      RegisteredAddressGetsNoRow(cfg, Step(cfg, db, events[0]).db, events[1..], n, email);
    }
  }

  /** A row of a run, whether it stood at the start or came later, is a conversion of a handled address only if it was one before. */
  lemma HandledAddressNeverConverts(cfg: Config, db: Db, events: seq<Event>, email: string, id: nat)
    requires AddressHandled(db, email)
    requires id < |Run(cfg, db, events).rows| && Run(cfg, db, events).rows[id].email == email
    requires Run(cfg, db, events).rows[id].status == Accepted
    ensures id < |db.rows| && db.rows[id] == Run(cfg, db, events).rows[id]
  {
    RegisteredAddressGetsNoRow(cfg, db, events, |db.rows|, email);
    EmailsStay(cfg, db, events, id);
    HandledAddressGainsNothing(cfg, db, events, email, id);
    ClosedRowsAreFrozen(cfg, db, events, id);
  }

  lemma {:induction false} EmailsStay(cfg: Config, db: Db, events: seq<Event>, id: nat)
    requires id < |db.rows|
    ensures id < |Run(cfg, db, events).rows| && Run(cfg, db, events).rows[id].email == db.rows[id].email
    decreases |events|
  {
    if events != [] {
      EmailStays(cfg, db, events[0], id);
      EmailsStay(cfg, Step(cfg, db, events[0]).db, events[1..], id);
    }
  }

  lemma EmailStays(cfg: Config, db: Db, e: Event, id: nat)
    requires id < |db.rows|
    ensures id < |Step(cfg, db, e).db.rows| && Step(cfg, db, e).db.rows[id].email == db.rows[id].email
  {
  }
}
