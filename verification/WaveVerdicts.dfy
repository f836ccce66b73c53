/**
 * What a turn decides and writes, said in terms of the rows alone
 * (src/notification/notification-queue.processor.ts, notification.constants.ts): who is
 * refused and why, and which rows and push jobs a complete turn leaves.
 */
module WaveVerdicts {
  import opened Common
  import opened Matching
  import opened Waves

  /** A row on the channel that is neither excluded nor failed stands for the user and alert. */
  ghost predicate Stands(rows: seq<Row>, owner: Owner, alert: int, user: int, channel: Channel) {
    exists i :: 0 <= i < |rows| && rows[i].alert == alert && rows[i].channel == channel
      && rows[i].excluded.None? && rows[i].status != Failed && owner(rows[i].device) == user
  }

  /** The user's notifications of the last day, by row: any alert, channel and outcome, unless excluded. */
  ghost function LastDay(rows: seq<Row>, owner: Owner, user: int, now: int): set<nat> {
    set i: nat | i < |rows| && rows[i].excluded.None? && rows[i].queuedAt >= now - 86_400_000 && owner(rows[i].device) == user
  }

  /** Why a user with reachable devices is excluded, or nothing if they are pushed to. */
  ghost function Verdict(
    rows: seq<Row>, owner: Owner, now: int, alert: int, wave: Confidence, quiet: bool, user: int): Option<Reason>
  {
    if wave != High && quiet then Some(QuietHours)
    else if Stands(rows, owner, alert, user, Push) then Some(AlreadyNotified)
    else if |LastDay(rows, owner, user, now)| >= (if wave == High then 10 else if wave == Medium then 5 else 2)
    then Some(OverDailyCap)
    else None
  }

  /** Notifications are counted one by one. */
  lemma {:induction false} SentIsCounted(rows: seq<Row>, owner: Owner, user: int, now: int)
    ensures SentSince(rows, owner, user, now - 86_400_000) == |LastDay(rows, owner, user, now)|
  {
    var all := LastDay(rows, owner, user, now);
    if rows == [] {
      assert all == {};
    } else {
      var n := |rows| - 1;
      var rest := LastDay(rows[..n], owner, user, now);
      SentIsCounted(rows[..n], owner, user, now);
      assert all == if CountsFor(rows[n], owner, user, now - 86_400_000) then rest + {n} else rest;
    }
  }

  lemma NotifiedIsStanding(rows: seq<Row>, owner: Owner, alert: int, user: int, channel: Channel)
    ensures HasBeenNotified(rows, owner, alert, user, channel) <==> Stands(rows, owner, alert, user, channel)
  {
    if HasBeenNotified(rows, owner, alert, user, channel) {
      var i :| 0 <= i < |rows| && Reaches(rows[i], owner, alert, user, channel);
      assert owner(rows[i].device) == user;
    }
    if Stands(rows, owner, alert, user, channel) {
      var i :| 0 <= i < |rows| && rows[i].alert == alert && rows[i].channel == channel
        && rows[i].excluded.None? && rows[i].status != Failed && owner(rows[i].device) == user;
      assert Reaches(rows[i], owner, alert, user, channel);
    }
  }

  /** The guards of a turn refuse exactly as the rows say. */
  lemma RefusalIsVerdict(owner: Owner, db: Db, t: Turn)
    ensures Refusal(owner, db, t) == Verdict(db.rows, owner, db.now, t.alert, t.wave, t.quiet, t.user)
  {
    NotifiedIsStanding(db.rows, owner, t.alert, t.user, Push);
    SentIsCounted(db.rows, owner, t.user, db.now);
  }

  /** A queued push row of a wave, or an excluded one. */
  function Written(alert: int, device: int, why: Option<Reason>, now: int): Row {
    Row(alert, device, Push, why, Queued, now, FromWave)
  }

  /**
   * A complete turn: one row for each reachable device, all queued with their jobs or all
   * excluded for the one reason; without reachable devices, one exclusion if the matched
   * device holds a token.
   */
  ghost predicate TurnLeaves(owner: Owner, before: Db, t: Turn, after: Db) {
    var why := Verdict(before.rows, owner, before.now, t.alert, t.wave, t.quiet, t.user);
    var n := |before.rows|;
    && after.now == before.now && after.mails == before.mails
    && after.batches == before.batches + (if t.targets != [] && why.None? then [Batch(t.user, before.now, t.wave)] else [])
    && (t.targets == [] ==>
          && after.jobs == before.jobs
          && after.rows == before.rows + if t.hasToken then [Written(t.alert, t.device, Some(PushTokenMissing), before.now)] else [])
    && (t.targets != [] ==>
          && |after.rows| == n + |t.targets| && before.rows <= after.rows
          && (forall i :: n <= i < |after.rows| ==> after.rows[i] == Written(t.alert, t.targets[i - n], why, before.now)))
    && (t.targets != [] && why.Some? ==> after.jobs == before.jobs)
    && (t.targets != [] && why.None? ==>
          && |after.jobs| == |before.jobs| + |t.targets| && before.jobs <= after.jobs
          && (forall j :: |before.jobs| <= j < |after.jobs| ==> after.jobs[j] == n + (j - |before.jobs|)))
  }

  lemma CompleteTurnLeaves(owner: Owner, db: Db, t: Turn)
    ensures TurnLeaves(owner, db, t, ApplyTurn(owner, db, t, |TurnDevices(t)|, true))
  {
    var after := ApplyTurn(owner, db, t, |TurnDevices(t)|, true);
    var added := TurnRows(owner, db, t, |TurnDevices(t)|);
    var why := Verdict(db.rows, owner, db.now, t.alert, t.wave, t.quiet, t.user);
    assert Refusal(owner, db, t) == why by { RefusalIsVerdict(owner, db, t); }
    assert after.rows == db.rows + added;
    if t.targets == [] {
      assert added == if t.hasToken then [Written(t.alert, t.device, Some(PushTokenMissing), db.now)] else [];
    } else {
      forall i | |db.rows| <= i < |after.rows|
        ensures after.rows[i] == Written(t.alert, t.targets[i - |db.rows|], why, db.now)
      {
        assert after.rows[i] == RowFor(owner, db, t, t.targets[i - |db.rows|]);
      }
    }
  }

  /** A turn cut short leaves the first rows of the complete one, and their jobs but perhaps the last. */
  lemma CutTurnLeaves(owner: Owner, db: Db, t: Turn, inserted: nat, lastQueued: bool)
    requires inserted <= |TurnDevices(t)|
    ensures var whole := ApplyTurn(owner, db, t, |TurnDevices(t)|, true);
      var cut := ApplyTurn(owner, db, t, inserted, lastQueued);
      && cut.rows == whole.rows[..|db.rows| + inserted]
      && cut.jobs <= whole.jobs && cut.batches == (if inserted == 0 then db.batches else whole.batches)
      && (whole.jobs != db.jobs && inserted > 0 ==> |cut.jobs| == |db.jobs| + inserted - if lastQueued then 0 else 1)
      && (whole.jobs == db.jobs || inserted == 0 ==> cut.jobs == db.jobs)
  {
    var whole := ApplyTurn(owner, db, t, |TurnDevices(t)|, true);
    assert TurnRows(owner, db, t, |TurnDevices(t)|)[..inserted] == TurnRows(owner, db, t, inserted);
    assert whole.rows[..|db.rows| + inserted] == db.rows + TurnRows(owner, db, t, inserted);
    if Pushes(owner, db, t) { assert |whole.jobs| == |db.jobs| + |t.targets|; }
  }

  /** The email of one user: nothing if one stands or none is attempted; else the outcome and, if recorded, its row. */
  ghost predicate EmailLeaves(
    owner: Owner, before: Db, alert: int, user: int, device: int, result: EmailResult, recorded: bool, after: Db)
  {
    var skipped := Stands(before.rows, owner, alert, user, Email) || result == NotAttempted;
    && after.now == before.now && after.jobs == before.jobs && after.batches == before.batches
    && after.mails == before.mails + (if !skipped && result == Accepted then [Mail(alert, user)] else [])
    && after.rows == before.rows +
         if skipped || !recorded then []
         else [Row(alert, device, Email, None, if result == Accepted then Sent else Failed, before.now, FromWave)]
  }

  lemma EmailTurnLeaves(owner: Owner, db: Db, alert: int, user: int, device: int, result: EmailResult, recorded: bool)
    ensures EmailLeaves(owner, db, alert, user, device, result, recorded,
                        ApplyEmail(owner, db, alert, user, device, result, recorded))
  {
    NotifiedIsStanding(db.rows, owner, alert, user, Email);
    assert db.rows + [] == db.rows && db.mails + [] == db.mails;
  }

  // --- rows that change no verdict ---------------------------------------------------------

  /** Rows from position `n` on say nothing about the user. */
  ghost predicate Foreign(rows: seq<Row>, owner: Owner, user: int, n: nat) {
    forall i :: n <= i < |rows| ==> rows[i].excluded.Some? || owner(rows[i].device) != user
  }

  lemma VerdictIgnoresForeign(
    before: seq<Row>, after: seq<Row>, owner: Owner, now: int, alert: int, wave: Confidence, quiet: bool, user: int)
    requires before <= after && Foreign(after, owner, user, |before|)
    ensures Verdict(after, owner, now, alert, wave, quiet, user) == Verdict(before, owner, now, alert, wave, quiet, user)
  {
    StandsIgnoresForeign(before, after, owner, alert, user, Push);
    assert LastDay(after, owner, user, now) == LastDay(before, owner, user, now);
  }

  lemma StandsIgnoresForeign(before: seq<Row>, after: seq<Row>, owner: Owner, alert: int, user: int, channel: Channel)
    requires before <= after
    requires forall i :: |before| <= i < |after| ==>
      after[i].excluded.Some? || owner(after[i].device) != user || after[i].channel != channel
    ensures Stands(after, owner, alert, user, channel) <==> Stands(before, owner, alert, user, channel)
  {
    if Stands(before, owner, alert, user, channel) {
      var i :| 0 <= i < |before| && before[i].alert == alert && before[i].channel == channel
        && before[i].excluded.None? && before[i].status != Failed && owner(before[i].device) == user;
      assert after[i] == before[i];
    }
  }
}
