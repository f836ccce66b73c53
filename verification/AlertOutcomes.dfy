/**
 * What each read and each write of the alert table does to every row, in the rows' own
 * fields (src/alert/alert.service.ts, src/pet/pet.service.ts). A read and its write are
 * taken apart: between them stands any run that does not finish the same operation.
 */
module AlertOutcomes {
  import opened Common
  import opened AlertLife

  /** Row `id` becomes `row`, and no other row changes. */
  ghost predicate OneRow(before: seq<Alert>, after: seq<Alert>, id: nat, row: Alert) {
    && |after| == |before| && id < |before| && after[id] == row
    && forall i :: 0 <= i < |before| && i != id ==> after[i] == before[i]
  }

  /** Marking a pet as found: its ACTIVE rows are resolved, and no other row changes. */
  ghost predicate FoundLeaves(before: seq<Alert>, after: seq<Alert>, pet: int) {
    && |after| == |before|
    && forall i :: 0 <= i < |before| ==>
      after[i] == if before[i].pet == Some(pet) && before[i].status == Active
                  then before[i].(status := Resolved) else before[i]
  }

  /** The expiry job: ACTIVE rows past their expiry expire, and no other row changes. */
  ghost predicate SweepLeaves(before: seq<Alert>, after: seq<Alert>, now: int) {
    && |after| == |before|
    && forall i :: 0 <= i < |before| ==>
      after[i] == if before[i].status == Active && before[i].expiresAt < now
                  then before[i].(status := Expired) else before[i]
  }

  /** A new pet name: the pet's DRAFT and ACTIVE rows take it, and no other row changes. */
  ghost predicate SyncLeaves(before: seq<Alert>, after: seq<Alert>, pet: int, name: string) {
    && |after| == |before|
    && forall i :: 0 <= i < |before| ==>
      after[i] == if before[i].pet == Some(pet) && (before[i].status == Active || before[i].status == Draft)
                  then before[i].(petName := name) else before[i]
  }

  // --- reads ------------------------------------------------------------------------------

  ghost predicate MayResolve(alerts: seq<Alert>, id: nat, user: int) {
    id < |alerts| && alerts[id].creator == user && alerts[id].status != Resolved
  }

  ghost predicate MayCancel(alerts: seq<Alert>, id: nat, user: int) {
    id < |alerts| && alerts[id].creator == user && (alerts[id].status == Draft || alerts[id].status == Active)
  }

  ghost predicate MayRenew(alerts: seq<Alert>, id: nat, user: int) {
    id < |alerts| && alerts[id].creator == user && alerts[id].status != Cancelled && alerts[id].renewals < 3
  }

  /** No read changes a row, and a read is followed by a write exactly when its checks pass. */
  lemma ReadsExactly(db: Db, op: nat, id: nat, user: int)
    requires op !in db.pending
    ensures Step(db, BeginResolve(op, id, user))
         == if MayResolve(db.alerts, id, user) then db.(pending := db.pending[op := Resolving(id)]) else db
    ensures Step(db, BeginCancel(op, id, user))
         == if MayCancel(db.alerts, id, user) then db.(pending := db.pending[op := Cancelling(id)]) else db
    ensures Step(db, BeginRenew(op, id, user))
         == if MayRenew(db.alerts, id, user) then db.(pending := db.pending[op := Renewing(id, db.alerts[id].renewals)]) else db
  {
  }

  // --- writes that come later ------------------------------------------------------------------

  /** The write of `op` is still to come all through `events`. */
  ghost predicate Meanwhile(events: seq<Event>, op: nat) {
    forall i :: 0 <= i < |events| ==> events[i] != Finish(op)
  }

  lemma {:induction false} PendingStays(db: Db, events: seq<Event>, op: nat)
    requires op in db.pending && Meanwhile(events, op)
    ensures op in Run(db, events).pending && Run(db, events).pending[op] == db.pending[op]
    ensures |db.alerts| <= |Run(db, events).alerts|
    decreases |events|
  {
    if events != [] {
      assert events[0] != Finish(op);
      PendingStays(Step(db, events[0]), events[1..], op);
    }
  }

  /** Marking as found, with anything between its read and its write: the rows it had read that are still ACTIVE. */
  lemma FoundInterleaved(db: Db, op: nat, pet: int, between: seq<Event>)
    requires op !in db.pending && Meanwhile(between, op)
    ensures var before := Run(Step(db, BeginFound(op, pet)), between);
      var after := Step(before, Finish(op));
      && |db.alerts| <= |before.alerts| == |after.alerts| && after.now == before.now
      && (forall i :: 0 <= i < |before.alerts| ==>
            after.alerts[i] ==
              if i < |db.alerts| && db.alerts[i].pet == Some(pet) && db.alerts[i].status == Active && before.alerts[i].status == Active
              then before.alerts[i].(status := Resolved) else before.alerts[i])
  {
    PendingStays(Step(db, BeginFound(op, pet)), between, op);
  }

  /**
   * So the alerts of the pet that are ACTIVE after the write are exactly those created after
   * the read and still ACTIVE: none that the read could see is missed.
   */
  lemma FoundMissesOnlyLaterAlerts(db: Db, op: nat, pet: int, between: seq<Event>, i: nat)
    requires op !in db.pending && Meanwhile(between, op)
    requires i < |Run(Step(db, BeginFound(op, pet)), between).alerts|
    ensures var before := Run(Step(db, BeginFound(op, pet)), between);
      var after := Step(before, Finish(op));
      && i < |after.alerts|
      && (after.alerts[i].pet == Some(pet) && after.alerts[i].status == Active
          <==> before.alerts[i].pet == Some(pet) && before.alerts[i].status == Active && i >= |db.alerts|)
  {
    FoundInterleaved(db, op, pet, between);
    if i < |db.alerts| {
      LeavingActiveIsFinal(Step(db, BeginFound(op, pet)), between, i);
    }
  }

  /** A resolution that passed its checks writes RESOLVED to that one row, whatever it has become since. */
  lemma ResolveInterleaved(db: Db, op: nat, id: nat, user: int, between: seq<Event>)
    requires op !in db.pending && Meanwhile(between, op) && MayResolve(db.alerts, id, user)
    ensures var before := Run(Step(db, BeginResolve(op, id, user)), between);
      id < |before.alerts| &&
      OneRow(before.alerts, Step(before, Finish(op)).alerts, id, before.alerts[id].(status := Resolved))
  {
    PendingStays(Step(db, BeginResolve(op, id, user)), between, op);
  }

  /** So does a cancellation. */
  lemma CancelInterleaved(db: Db, op: nat, id: nat, user: int, between: seq<Event>)
    requires op !in db.pending && Meanwhile(between, op) && MayCancel(db.alerts, id, user)
    ensures var before := Run(Step(db, BeginCancel(op, id, user)), between);
      id < |before.alerts| &&
      OneRow(before.alerts, Step(before, Finish(op)).alerts, id, before.alerts[id].(status := Cancelled))
  {
    PendingStays(Step(db, BeginCancel(op, id, user)), between, op);
  }

  /** A renewal writes a week from the write, and one more than the count it had read: later renewals are overwritten. */
  lemma RenewInterleaved(db: Db, op: nat, id: nat, user: int, between: seq<Event>)
    requires op !in db.pending && Meanwhile(between, op) && MayRenew(db.alerts, id, user)
    ensures var before := Run(Step(db, BeginRenew(op, id, user)), between);
      id < |before.alerts| &&
      OneRow(before.alerts, Step(before, Finish(op)).alerts, id,
        before.alerts[id].(expiresAt := before.now + 604_800_000, renewals := db.alerts[id].renewals + 1))
  {
    PendingStays(Step(db, BeginRenew(op, id, user)), between, op);
  }

  // --- writes in one statement ---------------------------------------------------------------------

  lemma WholeWritesExactly(db: Db)
    ensures SweepLeaves(db.alerts, Step(db, CheckExpired).alerts, db.now)
    ensures forall pet, name :: SyncLeaves(db.alerts, Step(db, SyncSnapshots(pet, name)).alerts, pet, name)
    ensures forall id: nat, user :: MayRenew(db.alerts, id, user) ==>
      OneRow(db.alerts, Step(db, Renew(id, user)).alerts, id,
        db.alerts[id].(expiresAt := db.now + 604_800_000, renewals := db.alerts[id].renewals + 1))
    ensures forall id: nat, user :: !MayRenew(db.alerts, id, user) ==> Step(db, Renew(id, user)) == db
  {
  }
}
