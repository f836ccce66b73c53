/**
 * The alert table as `AlertService` and `PetService` change it, one call after
 * another (src/alert/alert.service.ts, src/pet/pet.service.ts).
 */
module AlertServices {
  import opened Common
  import opened AlertLife
  import opened AlertOutcomes

  /** The status changes published, by alert. */
  datatype Notice = Notice(alert: nat, status: Status)

  /** The alerts among the first `n` that the expiry job takes, in order. */
  function OverdueIds(alerts: seq<Alert>, now: int, n: nat): (r: seq<nat>)
    requires n <= |alerts|
    ensures forall i: nat :: i in r <==> i < n && IsOverdue(alerts[i], now)
    ensures forall i :: 0 <= i < |r| ==> r[i] < n
    ensures forall i, j :: 0 <= i < j < |r| ==> r[i] < r[j]
  {
    if n == 0 then []
    else OverdueIds(alerts, now, n - 1) + (if IsOverdue(alerts[n - 1], now) then [n - 1] else [])
  }

  function Notices(ids: seq<nat>, status: Status): (r: seq<Notice>)
    ensures |r| == |ids| && forall i :: 0 <= i < |ids| ==> r[i] == Notice(ids[i], status)
  {
    seq(|ids|, i requires 0 <= i < |ids| => Notice(ids[i], status))
  }

  /** Exactly the alerts in `ids` are published, once each, after what stood there before. */
  ghost predicate OneNoticeEach(before: seq<Notice>, after: seq<Notice>, status: Status, ids: seq<nat>) {
    && |after| == |before| + |ids|
    && (forall k :: 0 <= k < |before| ==> after[k] == before[k])
    && (forall k :: 0 <= k < |ids| ==> after[|before| + k] == Notice(ids[k], status))
    && (forall i, j :: 0 <= i < j < |ids| ==> ids[i] < ids[j])
  }

  ghost predicate OverdueAre(alerts: seq<Alert>, now: int, ids: seq<nat>) {
    forall i: nat :: i in ids <==> i < |alerts| && alerts[i].status == Active && alerts[i].expiresAt < now
  }

  ghost predicate ActiveAre(alerts: seq<Alert>, pet: int, ids: seq<nat>) {
    forall i: nat :: i in ids <==> i < |alerts| && alerts[i].pet == Some(pet) && alerts[i].status == Active
  }

  /** Two events make an uninterrupted read and write. */
  lemma RunTwo(db: Db, a: Event, b: Event)
    ensures Run(db, [a, b]) == Step(Step(db, a), b)
  {
    assert [a, b][1..] == [b] && [b][1..] == [];
    assert Run(Step(db, a), [b]) == Run(Step(Step(db, a), b), []);
  }

  lemma FoundRuns(db: Db, pet: int)
    requires db.pending == map[]
    ensures Run(db, [BeginFound(0, pet), Finish(0)]) == db.(alerts := ResolvedOnFound(db.alerts, ActiveOf(db.alerts, pet)))
  {
    RunTwo(db, BeginFound(0, pet), Finish(0));
    assert Step(Step(db, BeginFound(0, pet)), Finish(0)).pending == map[];
  }

  class AlertService {
    var now: int
    var alerts: seq<Alert>
    var notices: seq<Notice>
    ghost var lastSweep: int

    /** Between calls nothing is in flight. */
    ghost function View(): Db
      reads this
    {
      Db(now, alerts, map[], lastSweep)
    }

    constructor (start: int)
      ensures View() == Init(start) && notices == []
    {
      now, alerts, notices, lastSweep := start, [], [], start;
    }

    method Create(userId: int, petId: Option<int>, name: string) returns (id: nat)
      modifies this`alerts
      ensures View() == Step(old(View()), AlertLife.Create(userId, petId, name))
      ensures id == |old(alerts)|
      ensures alerts == old(alerts) + [Alert(userId, petId, name, Active, now, now + 604_800_000, 0)]
    {
      var expiresAt := now + WEEK_MS;
      id := |alerts|;
      alerts := alerts + [Alert(userId, petId, name, Active, now, expiresAt, 0)];
    }

    method Resolve(id: nat, userId: int) returns (error: Option<Error>)
      modifies this`alerts, this`notices
      ensures View() == Run(old(View()), [BeginResolve(0, id, userId), Finish(0)])
      ensures error == Some(NotFound) <==> id >= |old(alerts)|
      ensures error == Some(Forbidden) <==> id < |old(alerts)| && old(alerts)[id].creator != userId
      ensures error == Some(AlreadyResolved)
         <==> id < |old(alerts)| && old(alerts)[id].creator == userId && old(alerts)[id].status == Resolved
      ensures error.None? <==> MayResolve(old(alerts), id, userId)
      ensures if error.None? then OneRow(old(alerts), alerts, id, old(alerts)[id].(status := Resolved)) else alerts == old(alerts)
      ensures notices == old(notices) + if error.None? then [Notice(id, Resolved)] else []
    {
      RunTwo(View(), BeginResolve(0, id, userId), Finish(0));
      if id >= |alerts| { return Some(NotFound); }
      if alerts[id].creator != userId { return Some(Forbidden); }
      if alerts[id].status == Resolved { return Some(AlreadyResolved); }
      alerts := alerts[id := alerts[id].(status := Resolved)];
      notices := notices + [Notice(id, Resolved)];
      return None;
    }

    method Cancel(id: nat, userId: int) returns (error: Option<Error>)
      modifies this`alerts, this`notices
      ensures View() == Run(old(View()), [BeginCancel(0, id, userId), Finish(0)])
      ensures error == Some(NotFound) <==> id >= |old(alerts)|
      ensures error == Some(Forbidden) <==> id < |old(alerts)| && old(alerts)[id].creator != userId
      ensures error == Some(NotCancellable)
         <==> id < |old(alerts)| && old(alerts)[id].creator == userId && old(alerts)[id].status !in {Draft, Active}
      ensures error.None? <==> MayCancel(old(alerts), id, userId)
      ensures if error.None? then OneRow(old(alerts), alerts, id, old(alerts)[id].(status := Cancelled)) else alerts == old(alerts)
      ensures notices == old(notices) + if error.None? then [Notice(id, Cancelled)] else []
    {
      RunTwo(View(), BeginCancel(0, id, userId), Finish(0));
      if id >= |alerts| { return Some(NotFound); }
      if alerts[id].creator != userId { return Some(Forbidden); }
      if alerts[id].status != Draft && alerts[id].status != Active { return Some(NotCancellable); }
      alerts := alerts[id := alerts[id].(status := Cancelled)];
      notices := notices + [Notice(id, Cancelled)];
      return None;
    }

    /** An expired or resolved alert may be renewed; its status stays. */
    method Renew(id: nat, userId: int) returns (error: Option<Error>)
      modifies this`alerts
      ensures View() == Step(old(View()), AlertLife.Renew(id, userId))
      ensures error == Some(NotFound) <==> id >= |old(alerts)|
      ensures error == Some(Forbidden) <==> id < |old(alerts)| && old(alerts)[id].creator != userId
      ensures error == Some(NotRenewable)
         <==> id < |old(alerts)| && old(alerts)[id].creator == userId && old(alerts)[id].status == Cancelled
      ensures error == Some(RenewalLimit)
         <==> id < |old(alerts)| && old(alerts)[id].creator == userId && old(alerts)[id].status != Cancelled && old(alerts)[id].renewals >= 3
      ensures error.None? <==> MayRenew(old(alerts), id, userId)
      ensures if error.None?
              then OneRow(old(alerts), alerts, id,
                     old(alerts)[id].(expiresAt := now + 604_800_000, renewals := old(alerts)[id].renewals + 1))
              else alerts == old(alerts)
    {
      if id >= |alerts| { return Some(NotFound); }
      var alert := alerts[id];
      if alert.creator != userId { return Some(Forbidden); }
      if alert.status == Cancelled { return Some(NotRenewable); }
      if alert.renewals >= MAX_RENEWALS { return Some(RenewalLimit); }
      var newExpiresAt := now + WEEK_MS;
      alerts := alerts[id := alert.(expiresAt := newExpiresAt, renewals := alert.renewals + 1)];
      return None;
    }

    /** Expires what is overdue, and publishes one notice for each alert it expired. */
    method CheckExpired()
      modifies this
      ensures View() == Step(old(View()), AlertLife.CheckExpired)
      ensures now == old(now) && SweepLeaves(old(alerts), alerts, now)
      ensures exists ids :: OneNoticeEach(old(notices), notices, Expired, ids) && OverdueAre(old(alerts), now, ids)
    {
      var expired := ExpireOverdue();
      assert OverdueAre(old(alerts), now, expired);
      lastSweep := now;
      Publish(expired, Expired);
    }

    /** The bulk update, answering the rows it changed. */
    method ExpireOverdue() returns (expired: seq<nat>)
      modifies this`alerts
      ensures alerts == Swept(old(alerts), now) && expired == OverdueIds(old(alerts), now, |old(alerts)|)
    {
      var updated: seq<Alert> := [];
      expired := [];
      for i := 0 to |alerts|
        invariant updated == Swept(alerts, now)[..i]
        invariant expired == OverdueIds(alerts, now, i)
      {
        var alert := alerts[i];
        if alert.expiresAt < now && alert.status == Active {
          updated := updated + [alert.(status := Expired)];
          expired := expired + [i];
        } else {
          updated := updated + [alert];
        }
      }
      alerts := updated;
    }

    /**
     * The alert part of `markAsFound`, after its checks on the pet: one bulk update, and one
     * notice for each alert it had read.
     */
    method MarkAsFound(petId: int)
      modifies this`alerts, this`notices
      ensures View() == Run(old(View()), [BeginFound(0, petId), Finish(0)])
      ensures FoundLeaves(old(alerts), alerts, petId)
      ensures exists ids :: OneNoticeEach(old(notices), notices, Resolved, ids) && ActiveAre(old(alerts), petId, ids)
    {
      FoundRuns(View(), petId);
      var activeAlerts := FindActive(petId);
      ResolveMany(activeAlerts, petId);
      Publish(activeAlerts, Resolved);
    }

    method FindActive(petId: int) returns (ids: seq<nat>)
      ensures ActiveAre(alerts, petId, ids)
      ensures forall i, j :: 0 <= i < j < |ids| ==> ids[i] < ids[j]
    {
      ids := [];
      for n := 0 to |alerts|
        invariant forall i: nat :: i in ids <==> i < n && alerts[i].pet == Some(petId) && alerts[i].status == Active
        invariant forall i, j :: 0 <= i < j < |ids| ==> ids[i] < ids[j]
      {
        if alerts[n].pet == Some(petId) && alerts[n].status == Active {
          assert forall k :: 0 <= k < |ids| ==> ids[k] in ids;
          ids := ids + [n];
        }
      }
    }

    method Publish(ids: seq<nat>, status: Status)
      modifies this`notices
      ensures notices == old(notices) + Notices(ids, status)
    {
      for i := 0 to |ids|
        invariant notices == old(notices) + Notices(ids[..i], status)
      {
        notices := notices + [Notice(ids[i], status)];
        assert Notices(ids[..i + 1], status) == Notices(ids[..i], status) + [Notice(ids[i], status)];
      }
      assert ids[..|ids|] == ids;
    }

    method ResolveMany(ids: seq<nat>, ghost petId: int)
      requires ActiveAre(alerts, petId, ids)
      modifies this`alerts
      ensures alerts == ResolvedOnFound(old(alerts), ActiveOf(old(alerts), petId))
      ensures FoundLeaves(old(alerts), alerts, petId)
    {
      var updated: seq<Alert> := [];
      for i := 0 to |alerts|
        invariant updated == ResolvedOnFound(alerts, ActiveOf(alerts, petId))[..i]
      {
        var alert := alerts[i];
        updated := updated + [if i in ids && alert.status == Active then alert.(status := Resolved) else alert];
      }
      alerts := updated;
    }

    method SyncAlertSnapshots(petId: int, name: string)
      modifies this`alerts
      ensures View() == Step(old(View()), SyncSnapshots(petId, name))
      ensures SyncLeaves(old(alerts), alerts, petId, name)
    {
      var updated: seq<Alert> := [];
      for i := 0 to |alerts|
        invariant updated == Synced(alerts, petId, name)[..i]
      {
        var alert := alerts[i];
        updated := updated + [if alert.pet == Some(petId) && IsOpen(alert) then alert.(petName := name) else alert];
      }
      alerts := updated;
    }
  }
}
