/**
 * The status and the expiry of alerts (src/alert/alert.service.ts, and the alert
 * writes of src/pet/pet.service.ts). Resolving, cancelling, renewing and marking a
 * pet as found read first and write later; every other operation may run between.
 */
module AlertLife {
  import opened Common

  const MAX_RENEWALS := 3

  datatype Status = Draft | Active | Resolved | Cancelled | Expired

  /** An alert row; its id is its position. */
  datatype Alert = Alert(
    creator: int, pet: Option<int>, petName: string, status: Status, createdAt: int, expiresAt: int, renewals: nat)

  /** An operation whose checks have passed and whose write is still to come. */
  datatype Pending =
    | Resolving(id: nat)
    | Cancelling(id: nat)
    | Renewing(id: nat, read: nat)
    | Finding(ids: set<nat>)

  /** `lastSweep` is when the expiry job last succeeded, kept for the specification. */
  datatype Db = Db(now: int, alerts: seq<Alert>, pending: map<nat, Pending>, lastSweep: int)

  datatype Error = NotFound | Forbidden | AlreadyResolved | NotCancellable | NotRenewable | RenewalLimit

  datatype Event =
    | Create(creator: int, forPet: Option<int>, name: string)
    | BeginResolve(op: nat, id: nat, user: int)
    | BeginCancel(op: nat, id: nat, user: int)
    | BeginRenew(op: nat, id: nat, user: int)
    | BeginFound(op: nat, pet: int)
    | Finish(op: nat)
    | Renew(id: nat, user: int)
    | CheckExpired
    | SyncSnapshots(pet: int, name: string)
    | Wait(ms: nat)

  // --- checks -------------------------------------------------------------------------

  function OwnerError(alerts: seq<Alert>, id: nat, user: int): Option<Error> {
    if id >= |alerts| then Some(NotFound) else if alerts[id].creator != user then Some(Forbidden) else None
  }

  /** Only a resolved alert refuses: cancelled and expired ones may be resolved. */
  function ResolveError(alerts: seq<Alert>, id: nat, user: int): Option<Error> {
    if OwnerError(alerts, id, user).Some? then OwnerError(alerts, id, user)
    else if alerts[id].status == Resolved then Some(AlreadyResolved)
    else None
  }

  function CancelError(alerts: seq<Alert>, id: nat, user: int): Option<Error> {
    if OwnerError(alerts, id, user).Some? then OwnerError(alerts, id, user)
    else if alerts[id].status != Draft && alerts[id].status != Active then Some(NotCancellable)
    else None
  }

  function RenewError(alerts: seq<Alert>, id: nat, user: int): Option<Error> {
    if OwnerError(alerts, id, user).Some? then OwnerError(alerts, id, user)
    else if alerts[id].status == Cancelled then Some(NotRenewable)
    else if alerts[id].renewals >= MAX_RENEWALS then Some(RenewalLimit)
    else None
  }

  function ActiveOf(alerts: seq<Alert>, pet: int): set<nat> {
    set i: nat | i < |alerts| && alerts[i].pet == Some(pet) && alerts[i].status == Active
  }

  // --- writes -------------------------------------------------------------------------

  function WithStatus(alerts: seq<Alert>, id: nat, status: Status): seq<Alert> {
    if id < |alerts| then alerts[id := alerts[id].(status := status)] else alerts
  }

  function Renewed(alerts: seq<Alert>, id: nat, read: nat, now: int): seq<Alert> {
    if id < |alerts| then alerts[id := alerts[id].(expiresAt := now + WEEK_MS, renewals := read + 1)] else alerts
  }

  function ResolvedOnFound(alerts: seq<Alert>, ids: set<nat>): (r: seq<Alert>) {
    seq(|alerts|, i requires 0 <= i < |alerts| =>
      if i in ids && alerts[i].status == Active then alerts[i].(status := Resolved) else alerts[i])
  }

  predicate IsOverdue(a: Alert, now: int) {
    a.expiresAt < now && a.status == Active
  }

  function Swept(alerts: seq<Alert>, now: int): (r: seq<Alert>) {
    seq(|alerts|, i requires 0 <= i < |alerts| =>
      if IsOverdue(alerts[i], now) then alerts[i].(status := Expired) else alerts[i])
  }

  predicate IsOpen(a: Alert) {
    a.status == Active || a.status == Draft
  }

  function Synced(alerts: seq<Alert>, pet: int, name: string): (r: seq<Alert>) {
    seq(|alerts|, i requires 0 <= i < |alerts| =>
      if alerts[i].pet == Some(pet) && IsOpen(alerts[i]) then alerts[i].(petName := name) else alerts[i])
  }

  function Written(db: Db, p: Pending): seq<Alert> {
    match p
    case Resolving(id) => WithStatus(db.alerts, id, Resolved)
    case Cancelling(id) => WithStatus(db.alerts, id, Cancelled)
    case Renewing(id, read) => Renewed(db.alerts, id, read, db.now)
    case Finding(ids) => ResolvedOnFound(db.alerts, ids)
  }

  function NewAlert(now: int, creator: int, pet: Option<int>, name: string): Alert {
    Alert(creator, pet, name, Active, now, now + WEEK_MS, 0)
  }

  /** A read that passes its checks leaves its write pending; an operation id is used once at a time. */
  function Begun(db: Db, op: nat, error: Option<Error>, p: Pending): Db {
    if op in db.pending || error.Some? then db else db.(pending := db.pending[op := p])
  }

  function Step(db: Db, e: Event): Db {
    match e
    case Create(creator, pet, name) => db.(alerts := db.alerts + [NewAlert(db.now, creator, pet, name)])
    case BeginResolve(op, id, user) => Begun(db, op, ResolveError(db.alerts, id, user), Resolving(id))
    case BeginCancel(op, id, user) => Begun(db, op, CancelError(db.alerts, id, user), Cancelling(id))
    case BeginRenew(op, id, user) =>
      Begun(db, op, RenewError(db.alerts, id, user), Renewing(id, if id < |db.alerts| then db.alerts[id].renewals else 0))
    case BeginFound(op, pet) => Begun(db, op, None, Finding(ActiveOf(db.alerts, pet)))
    case Finish(op) =>
      if op in db.pending then db.(alerts := Written(db, db.pending[op]), pending := db.pending - {op}) else db
    case Renew(id, user) =>
      if RenewError(db.alerts, id, user).Some? then db
      else db.(alerts := Renewed(db.alerts, id, db.alerts[id].renewals, db.now))
    case CheckExpired => db.(alerts := Swept(db.alerts, db.now), lastSweep := db.now)
    case SyncSnapshots(pet, name) => db.(alerts := Synced(db.alerts, pet, name))
    case Wait(ms) => db.(now := db.now + ms)
  }

  function Run(db: Db, events: seq<Event>): Db
    decreases |events|
  {
    if events == [] then db else Run(Step(db, events[0]), events[1..])
  }

  function Init(now: int): Db {
    Db(now, [], map[], now)
  }

  lemma {:induction false} RunConcat(db: Db, a: seq<Event>, b: seq<Event>)
    ensures Run(db, a + b) == Run(Run(db, a), b)
    decreases |a|
  {
    if a == [] {
      assert a + b == b;
    } else {
      assert (a + b)[1..] == a[1..] + b;
      RunConcat(Step(db, a[0]), a[1..], b);
    }
  }

  // --- leaving ACTIVE is final ------------------------------------------------------------

  /** What no operation undoes for one row, whatever is in flight. */
  ghost predicate OnlyCloses(before: Alert, after: Alert) {
    && (after.status == Active ==> before.status == Active)
    && (IsOpen(after) ==> IsOpen(before))
    && (!IsOpen(before) ==> after.petName == before.petName)
    && after.creator == before.creator && after.pet == before.pet && after.createdAt == before.createdAt
  }

  lemma StepOnlyCloses(db: Db, e: Event, id: nat)
    requires id < |db.alerts|
    ensures id < |Step(db, e).alerts| && OnlyCloses(db.alerts[id], Step(db, e).alerts[id])
  {
  }

  /**
   * However reads and writes interleave, an alert that has left ACTIVE is never ACTIVE
   * again, a closed alert never reopens, and its pet snapshot stays as it was.
   */
  lemma {:induction false} LeavingActiveIsFinal(db: Db, events: seq<Event>, id: nat)
    requires id < |db.alerts|
    ensures id < |Run(db, events).alerts| && OnlyCloses(db.alerts[id], Run(db, events).alerts[id])
    decreases |events|
  {
    if events != [] {
      StepOnlyCloses(db, events[0], id);
      LeavingActiveIsFinal(Step(db, events[0]), events[1..], id);
    }
  }

  // --- RESOLVED is final unless a cancellation was in flight -------------------------------------

  ghost predicate CancelInFlight(db: Db, id: nat) {
    exists op :: op in db.pending && db.pending[op] == Cancelling(id)
  }

  lemma StepKeepsResolved(db: Db, e: Event, id: nat)
    requires id < |db.alerts| && db.alerts[id].status == Resolved && !CancelInFlight(db, id)
    ensures id < |Step(db, e).alerts| && Step(db, e).alerts[id].status == Resolved && !CancelInFlight(Step(db, e), id)
  {
    var after := Step(db, e);
    forall op | op in after.pending ensures after.pending[op] != Cancelling(id) {
      if op in db.pending { assert db.pending[op] != Cancelling(id); }
    }
  }

  lemma {:induction false} RunKeepsResolved(db: Db, events: seq<Event>, id: nat)
    requires id < |db.alerts| && db.alerts[id].status == Resolved && !CancelInFlight(db, id)
    ensures id < |Run(db, events).alerts| && Run(db, events).alerts[id].status == Resolved
    decreases |events|
  {
    if events != [] {
      StepKeepsResolved(db, events[0], id);
      RunKeepsResolved(Step(db, events[0]), events[1..], id);
    }
  }

  /** A resolved alert can change status again exactly when a cancellation read it before. */
  lemma ResolvedIsFinalExactly(db: Db, id: nat)
    requires id < |db.alerts| && db.alerts[id].status == Resolved
    ensures (exists events :: id < |Run(db, events).alerts| && Run(db, events).alerts[id].status != Resolved)
        <==> CancelInFlight(db, id)
  {
    if CancelInFlight(db, id) {
      var op :| op in db.pending && db.pending[op] == Cancelling(id);
      var events := [Finish(op)];
      assert Run(db, events) == Run(Step(db, Finish(op)), events[1..]);
      assert Run(db, events).alerts[id].status == Cancelled;
    } else {
      forall events ensures id < |Run(db, events).alerts| ==> Run(db, events).alerts[id].status == Resolved {
        RunKeepsResolved(db, events, id);
      }
    }
  }

  // --- the bound on an alert's life ------------------------------------------------------------

  /** The expiry job has succeeded within the last `h` at every point of the run. */
  predicate Timely(db: Db, events: seq<Event>, h: nat)
    decreases |events|
  {
    db.now <= db.lastSweep + h && (events == [] || Timely(Step(db, events[0]), events[1..], h))
  }

  /** No renewal's write is separated from its read. */
  predicate WholeRenewals(events: seq<Event>) {
    forall i :: 0 <= i < |events| ==> !events[i].BeginRenew?
  }

  /** How far past its creation an alert renewed `renewals` times may expire. */
  function Allowance(renewals: nat, h: nat): nat {
    if renewals == 0 then WEEK_MS else Allowance(renewals - 1, h) + WEEK_MS + h
  }

  ghost predicate LifeOk(db: Db, a: Alert, h: nat) {
    && a.renewals <= MAX_RENEWALS
    && (a.status == Active ==> db.lastSweep <= a.expiresAt <= a.createdAt + Allowance(a.renewals, h))
  }

  ghost predicate LifeInv(db: Db, h: nat) {
    && db.lastSweep <= db.now
    && (forall op :: op in db.pending ==> !db.pending[op].Renewing?)
    && (forall i :: 0 <= i < |db.alerts| ==> LifeOk(db, db.alerts[i], h))
  }

  lemma StepKeepsLife(db: Db, e: Event, h: nat)
    requires LifeInv(db, h) && db.now <= db.lastSweep + h && !e.BeginRenew?
    ensures LifeInv(Step(db, e), h)
  {
    var after := Step(db, e);
    forall i | 0 <= i < |after.alerts| ensures LifeOk(after, after.alerts[i], h) {
      if i < |db.alerts| {
        assert LifeOk(db, db.alerts[i], h);
      } else {
        assert Allowance(0, h) == WEEK_MS;
      }
    }
  }

  lemma {:induction false} RunKeepsLife(db: Db, events: seq<Event>, h: nat)
    requires LifeInv(db, h) && Timely(db, events, h) && WholeRenewals(events)
    ensures LifeInv(Run(db, events), h) && Run(db, events).now <= Run(db, events).lastSweep + h
    decreases |events|
  {
    if events != [] {
      StepKeepsLife(db, events[0], h);
      RunKeepsLife(Step(db, events[0]), events[1..], h);
    }
  }

  lemma AllowanceInClosedForm(h: nat)
    ensures Allowance(0, h) == WEEK_MS && Allowance(1, h) == 2 * WEEK_MS + h
    ensures Allowance(2, h) == 3 * WEEK_MS + 2 * h && Allowance(3, h) == 4 * WEEK_MS + 3 * h
  {
    assert Allowance(1, h) == Allowance(0, h) + WEEK_MS + h;
    assert Allowance(2, h) == Allowance(1, h) + WEEK_MS + h;
  }

  /**
   * With an expiry job that succeeds at least once in every `h` milliseconds, no alert is
   * ACTIVE later than 28 days + 4h after its creation, nor later than the weeks its own
   * renewals pay for.
   */
  lemma NoAlertOutlivesItsRenewals(start: int, events: seq<Event>, h: nat, id: nat)
    requires Timely(Init(start), events, h) && WholeRenewals(events)
    requires id < |Run(Init(start), events).alerts| && Run(Init(start), events).alerts[id].status == Active
    ensures var db := Run(Init(start), events);
      && db.alerts[id].renewals <= MAX_RENEWALS
      && db.now <= db.alerts[id].createdAt + (db.alerts[id].renewals + 1) * (WEEK_MS + h)
      && db.now <= db.alerts[id].createdAt + 4 * WEEK_MS + 4 * h
  {
    RunKeepsLife(Init(start), events, h);
    var db := Run(Init(start), events);
    assert LifeOk(db, db.alerts[id], h);
    AllowanceInClosedForm(h);
    var r := db.alerts[id].renewals;
    assert r == 0 || r == 1 || r == 2 || r == 3;
    assert (r + 1) * (WEEK_MS + h) == Allowance(r, h) + h;
  }

  // --- the bound is reached --------------------------------------------------------------------------

  /** Wait `distance` in strides of at most `h`, sweeping after each. */
  function Walk(distance: nat, h: nat): seq<Event>
    requires h > 0
    decreases distance
  {
    if distance == 0 then []
    else if distance <= h then [Wait(distance), CheckExpired]
    else [Wait(h), CheckExpired] + Walk(distance - h, h)
  }

  /** A table with one active alert, in step with the expiry job. */
  ghost predicate Alone(db: Db, creator: int) {
    |db.alerts| == 1 && db.alerts[0].status == Active && db.alerts[0].creator == creator && db.now == db.lastSweep
  }

  lemma {:induction false} TimelyConcat(db: Db, a: seq<Event>, b: seq<Event>, h: nat)
    requires Timely(db, a, h) && Timely(Run(db, a), b, h)
    ensures Timely(db, a + b, h)
    decreases |a|
  {
    if a == [] {
      assert a + b == b;
    } else {
      assert (a + b)[1..] == a[1..] + b;
      TimelyConcat(Step(db, a[0]), a[1..], b, h);
    }
  }

  lemma Stride(db: Db, ms: nat, h: nat, creator: int)
    requires Alone(db, creator) && ms <= h && db.now + ms <= db.alerts[0].expiresAt
    ensures Timely(db, [Wait(ms), CheckExpired], h)
    ensures Run(db, [Wait(ms), CheckExpired]) == db.(now := db.now + ms, lastSweep := db.now + ms)
  {
    var waited := Step(db, Wait(ms));
    var swept := Step(waited, CheckExpired);
    assert swept.alerts == db.alerts;
    assert [Wait(ms), CheckExpired][1..] == [CheckExpired] && [CheckExpired][1..] == [];
    assert Run(waited, [CheckExpired]) == Run(swept, []);
    assert Timely(swept, [], h) && Timely(waited, [CheckExpired], h);
  }

  lemma {:induction false} WalkKeepsAlive(db: Db, distance: nat, h: nat, creator: int)
    requires h > 0 && Alone(db, creator) && db.now + distance <= db.alerts[0].expiresAt
    ensures Timely(db, Walk(distance, h), h)
    ensures Run(db, Walk(distance, h)) == db.(now := db.now + distance, lastSweep := db.now + distance)
    decreases distance
  {
    if 0 < distance <= h {
      Stride(db, distance, h, creator);
    } else if distance > h {
      Stride(db, h, h, creator);
      var mid := db.(now := db.now + h, lastSweep := db.now + h);
      WalkKeepsAlive(mid, distance - h, h, creator);
      RunConcat(db, [Wait(h), CheckExpired], Walk(distance - h, h));
      TimelyConcat(db, [Wait(h), CheckExpired], Walk(distance - h, h), h);
    }
  }

  /** Walk to the very instant of expiry, let the expiry job be as late as it may, renew, and sweep. */
  function Leg(h: nat, week: nat, creator: int): seq<Event>
    requires h > 0
  {
    Walk(week, h) + [Wait(h), Renew(0, creator), CheckExpired]
  }

  function Legs(n: nat, h: nat, week: nat, creator: int): seq<Event>
    requires h > 0
  {
    if n == 0 then [] else Leg(h, week, creator) + Legs(n - 1, h, week, creator)
  }

  lemma ThreeSteps(db: Db, a: Event, b: Event, c: Event, h: nat)
    requires db.now <= db.lastSweep + h && Step(db, a).now <= Step(db, a).lastSweep + h
    requires Step(Step(db, a), b).now <= Step(Step(db, a), b).lastSweep + h
    requires Step(Step(Step(db, a), b), c).now <= Step(Step(Step(db, a), b), c).lastSweep + h
    ensures Run(db, [a, b, c]) == Step(Step(Step(db, a), b), c) && Timely(db, [a, b, c], h)
  {
    var s1 := Step(db, a);
    var s2 := Step(s1, b);
    var s3 := Step(s2, c);
    assert [a, b, c][1..] == [b, c] && [b, c][1..] == [c] && [c][1..] == [];
    assert Run(s1, [b, c]) == Run(s2, [c]) == Run(s3, []) == s3;
    assert Timely(s3, [], h) && Timely(s2, [c], h) && Timely(s1, [b, c], h);
  }

  lemma LateRenewal(db: Db, h: nat, creator: int)
    requires Alone(db, creator) && db.now == db.alerts[0].expiresAt && db.alerts[0].renewals < MAX_RENEWALS
    ensures var end := [Wait(h), Renew(0, creator), CheckExpired];
      && Timely(db, end, h)
      && Run(db, end) == db.(now := db.now + h, lastSweep := db.now + h,
           alerts := [db.alerts[0].(expiresAt := db.now + h + WEEK_MS, renewals := db.alerts[0].renewals + 1)])
  {
    var waited := db.(now := db.now + h);
    RenewAlone(waited, creator);
    SweepSpares(Step(waited, Renew(0, creator)));
    ThreeSteps(db, Wait(h), Renew(0, creator), CheckExpired, h);
  }

  lemma RenewAlone(db: Db, creator: int)
    requires |db.alerts| == 1 && RenewError(db.alerts, 0, creator).None?
    ensures Step(db, Renew(0, creator))
         == db.(alerts := [db.alerts[0].(expiresAt := db.now + WEEK_MS, renewals := db.alerts[0].renewals + 1)])
  {
  }

  lemma SweepSpares(db: Db)
    requires forall i :: 0 <= i < |db.alerts| ==> db.alerts[i].expiresAt >= db.now
    ensures Step(db, CheckExpired) == db.(lastSweep := db.now)
  {
    assert Swept(db.alerts, db.now) == db.alerts;
  }

  lemma OneLeg(db: Db, h: nat, week: nat, creator: int)
    requires h > 0 && week == WEEK_MS && Alone(db, creator)
    requires db.now + week == db.alerts[0].expiresAt && db.alerts[0].renewals < MAX_RENEWALS
    ensures var t := db.now + week + h;
      && Timely(db, Leg(h, week, creator), h)
      && Run(db, Leg(h, week, creator)) == db.(now := t, lastSweep := t,
           alerts := [db.alerts[0].(expiresAt := t + week, renewals := db.alerts[0].renewals + 1)])
  {
    WalkKeepsAlive(db, week, h, creator);
    var due := db.(now := db.now + week, lastSweep := db.now + week);
    LateRenewal(due, h, creator);
    RunConcat(db, Walk(week, h), [Wait(h), Renew(0, creator), CheckExpired]);
    TimelyConcat(db, Walk(week, h), [Wait(h), Renew(0, creator), CheckExpired], h);
  }

  lemma {:induction false} LegsAdd(db: Db, n: nat, h: nat, week: nat, creator: int)
    requires h > 0 && week == WEEK_MS && Alone(db, creator)
    requires db.now + week == db.alerts[0].expiresAt && db.alerts[0].renewals + n <= MAX_RENEWALS
    ensures Timely(db, Legs(n, h, week, creator), h)
    ensures var after := Run(db, Legs(n, h, week, creator));
      && Alone(after, creator) && after.now == db.now + n * (week + h) && after.now + week == after.alerts[0].expiresAt
      && after.alerts[0].createdAt == db.alerts[0].createdAt
    decreases n
  {
    if n > 0 {
      OneLeg(db, h, week, creator);
      var mid := Run(db, Leg(h, week, creator));
      LegsAdd(mid, n - 1, h, week, creator);
      RunConcat(db, Leg(h, week, creator), Legs(n - 1, h, week, creator));
      TimelyConcat(db, Leg(h, week, creator), Legs(n - 1, h, week, creator), h);
    }
  }

  /** A creator renews as late as possible three times. */
  function LongestLife(creator: int, h: nat, week: nat): seq<Event>
    requires h > 0
  {
    [Create(creator, None, "")] + (Legs(3, h, week, creator) + (Walk(week, h) + [Wait(h)]))
  }

  /** For every interval `h` the bound is reached: an alert can be ACTIVE exactly 28 days + 4h after its creation. */
  lemma BoundIsReached(start: int, creator: int, h: nat, week: nat)
    requires h > 0 && week == WEEK_MS
    ensures var events := LongestLife(creator, h, week);
      var db := Run(Init(start), events);
      && Timely(Init(start), events, h)
      && |db.alerts| == 1 && db.alerts[0].status == Active
      && db.now == db.alerts[0].createdAt + 4 * WEEK_MS + 4 * h
  {
    var rest := Legs(3, h, week, creator) + (Walk(week, h) + [Wait(h)]);
    var created := Step(Init(start), Create(creator, None, ""));
    assert ([Create(creator, None, "")] + rest)[1..] == rest;
    LegsAdd(created, 3, h, week, creator);
    var late := Run(created, Legs(3, h, week, creator));
    WalkKeepsAlive(late, week, h, creator);
    var due := late.(now := late.now + week, lastSweep := late.now + week);
    LastWait(due, h);
    RunConcat(late, Walk(week, h), [Wait(h)]);
    TimelyConcat(late, Walk(week, h), [Wait(h)], h);
    RunConcat(created, Legs(3, h, week, creator), Walk(week, h) + [Wait(h)]);
    TimelyConcat(created, Legs(3, h, week, creator), Walk(week, h) + [Wait(h)], h);
  }

  lemma LastWait(db: Db, h: nat)
    requires db.now == db.lastSweep
    ensures Timely(db, [Wait(h)], h) && Run(db, [Wait(h)]) == db.(now := db.now + h)
  {
    assert [Wait(h)][1..] == [];
    assert Timely(Step(db, Wait(h)), [], h) && Run(Step(db, Wait(h)), []) == Step(db, Wait(h));
  }

  // --- interleaved renewals escape the limit -------------------------------------------------------------

  function Begins(n: nat, user: int): seq<Event> {
    if n == 0 then [] else Begins(n - 1, user) + [BeginRenew(n - 1, 0, user)]
  }

  function Finishes(n: nat): seq<Event> {
    if n == 0 then [] else Finishes(n - 1) + [Finish(n - 1)]
  }

  /** `n` renewals of the first alert that all read the same count. */
  function Overlapping(n: nat, read: nat): (r: map<nat, Pending>)
    ensures |r| == n && forall k: nat :: k in r <==> k < n
    ensures forall k :: k in r ==> r[k] == Renewing(0, read)
  {
    if n == 0 then map[] else Overlapping(n - 1, read)[n - 1 := Renewing(0, read)]
  }

  lemma {:induction false} AllBegin(db: Db, n: nat, user: int)
    requires db.pending == map[] && |db.alerts| == 1 && RenewError(db.alerts, 0, user).None?
    ensures Run(db, Begins(n, user)) == db.(pending := Overlapping(n, db.alerts[0].renewals))
  {
    if n > 0 {
      AllBegin(db, n - 1, user);
      RunConcat(db, Begins(n - 1, user), [BeginRenew(n - 1, 0, user)]);
      var s := Run(db, Begins(n - 1, user));
      assert [BeginRenew(n - 1, 0, user)][1..] == [];
      assert Run(s, [BeginRenew(n - 1, 0, user)]) == Run(Step(s, BeginRenew(n - 1, 0, user)), []);
    }
  }

  lemma {:induction false} AllFinish(db: Db, n: nat, read: nat)
    requires |db.alerts| == 1 && forall k: nat :: k < n ==> k in db.pending && db.pending[k] == Renewing(0, read)
    ensures var after := Run(db, Finishes(n));
      && after.pending == (map k | k in db.pending && k >= n :: db.pending[k]) && |after.alerts| == 1
      && after.alerts[0] == (if n == 0 then db.alerts[0]
           else db.alerts[0].(expiresAt := db.now + WEEK_MS, renewals := read + 1))
      && after.now == db.now
    ensures Accepted(db, Finishes(n), 0) == n
  {
    if n > 0 {
      AllFinish(db, n - 1, read);
      RunConcat(db, Finishes(n - 1), [Finish(n - 1)]);
      AcceptedConcat(db, Finishes(n - 1), [Finish(n - 1)], 0);
      var s := Run(db, Finishes(n - 1));
      assert n - 1 in s.pending;
      assert [Finish(n - 1)][1..] == [];
      assert Run(s, [Finish(n - 1)]) == Run(Step(s, Finish(n - 1)), []);
      assert Accepted(s, [Finish(n - 1)], 0) == 1 + Accepted(Step(s, Finish(n - 1)), [], 0);
    } else {
      assert (map k | k in db.pending && k >= 0 :: db.pending[k]) == db.pending;
    }
  }

  /**
   * Renewals that read before any of them writes are all accepted, any number of them,
   * and together count once: the limit of three needs renewals that do not overlap.
   */
  lemma OverlappingRenewalsCountOnce(db: Db, n: nat, user: int)
    requires db.pending == map[] && |db.alerts| == 1 && RenewError(db.alerts, 0, user).None? && n > 0
    ensures var begun := Run(db, Begins(n, user));
      && |begun.pending| == n && |Run(begun, Finishes(n)).alerts| == 1
      && Run(begun, Finishes(n)).pending == map[] && Accepted(begun, Finishes(n), 0) == n
      && Run(begun, Finishes(n)).alerts[0].renewals == db.alerts[0].renewals + 1
  {
    AllBegin(db, n, user);
    var begun := Run(db, Begins(n, user));
    AllFinish(begun, n, db.alerts[0].renewals);
  }

  // --- when the limit of three renewals holds --------------------------------------------------------------

  /** The event writes a renewal of the alert. */
  predicate Renews(db: Db, e: Event, id: nat) {
    || (e.Renew? && e.id == id && RenewError(db.alerts, id, e.user).None?)
    || (e.Finish? && e.op in db.pending && db.pending[e.op].Renewing? && db.pending[e.op].id == id && id < |db.alerts|)
  }

  /** How many renewals of the alert a run accepts and writes. */
  function Accepted(db: Db, events: seq<Event>, id: nat): nat
    decreases |events|
  {
    if events == [] then 0
    else (if Renews(db, events[0], id) then 1 else 0) + Accepted(Step(db, events[0]), events[1..], id)
  }

  function RenewalCount(db: Db, id: nat): nat {
    if id < |db.alerts| then db.alerts[id].renewals else 0
  }

  ghost predicate RenewalInFlight(db: Db, id: nat) {
    exists op :: op in db.pending && db.pending[op].Renewing? && db.pending[op].id == id
  }

  /** The counter never passes three, even with overlapping renewals: each writes at most one more than it read. */
  ghost predicate CountOk(db: Db) {
    && (forall i :: 0 <= i < |db.alerts| ==> db.alerts[i].renewals <= MAX_RENEWALS)
    && (forall op :: op in db.pending && db.pending[op].Renewing? ==> db.pending[op].read < MAX_RENEWALS)
  }

  lemma StepKeepsCount(db: Db, e: Event)
    requires CountOk(db)
    ensures CountOk(Step(db, e))
  {
  }

  lemma {:induction false} RunKeepsCount(db: Db, events: seq<Event>)
    requires CountOk(db)
    ensures CountOk(Run(db, events))
    decreases |events|
  {
    if events != [] {
      StepKeepsCount(db, events[0]);
      RunKeepsCount(Step(db, events[0]), events[1..]);
    }
  }

  ghost predicate NoRenewalInFlight(db: Db) {
    forall op :: op in db.pending ==> !db.pending[op].Renewing?
  }

  lemma WholeStepCounts(db: Db, e: Event, id: nat)
    requires NoRenewalInFlight(db) && !e.BeginRenew?
    ensures NoRenewalInFlight(Step(db, e))
    ensures RenewalCount(Step(db, e), id) == RenewalCount(db, id) + if Renews(db, e, id) then 1 else 0
  {
  }

  /** Renewals that do not overlap are counted one for one. */
  lemma {:induction false} WholeRenewalsAreCounted(db: Db, events: seq<Event>, id: nat)
    requires NoRenewalInFlight(db) && WholeRenewals(events)
    ensures RenewalCount(Run(db, events), id) == RenewalCount(db, id) + Accepted(db, events, id)
    decreases |events|
  {
    if events != [] {
      WholeStepCounts(db, events[0], id);
      WholeRenewalsAreCounted(Step(db, events[0]), events[1..], id);
    }
  }

  /** So without overlaps no alert is ever renewed more than three times. */
  lemma AtMostThreeWholeRenewals(start: int, events: seq<Event>, id: nat)
    requires WholeRenewals(events)
    ensures Accepted(Init(start), events, id) <= MAX_RENEWALS
  {
    WholeRenewalsAreCounted(Init(start), events, id);
    RunKeepsCount(Init(start), events);
  }

  /** The counter stands at three and nobody is about to set it back. */
  ghost predicate Exhausted(db: Db, id: nat) {
    id < |db.alerts| && db.alerts[id].renewals == MAX_RENEWALS && !RenewalInFlight(db, id)
  }

  lemma StepStaysExhausted(db: Db, e: Event, id: nat)
    requires Exhausted(db, id)
    ensures Exhausted(Step(db, e), id) && !Renews(db, e, id)
  {
    var after := Step(db, e);
    forall op | op in after.pending ensures !(after.pending[op].Renewing? && after.pending[op].id == id) {
      if op in db.pending { assert !(db.pending[op].Renewing? && db.pending[op].id == id); }
    }
  }

  lemma {:induction false} ExhaustedAcceptsNone(db: Db, events: seq<Event>, id: nat)
    requires Exhausted(db, id)
    ensures Accepted(db, events, id) == 0
    decreases |events|
  {
    if events != [] {
      StepStaysExhausted(db, events[0], id);
      ExhaustedAcceptsNone(Step(db, events[0]), events[1..], id);
    }
  }

  lemma {:induction false} AcceptedConcat(db: Db, a: seq<Event>, b: seq<Event>, id: nat)
    ensures Accepted(db, a + b, id) == Accepted(db, a, id) + Accepted(Run(db, a), b, id)
    decreases |a|
  {
    if a == [] {
      assert a + b == b;
    } else {
      assert (a + b)[1..] == a[1..] + b;
      AcceptedConcat(Step(db, a[0]), a[1..], b, id);
    }
  }

  function Renewals(n: nat, id: nat, user: int): seq<Event> {
    if n == 0 then [] else [Renew(id, user)] + Renewals(n - 1, id, user)
  }

  /** With a renewal in flight, renew up to the limit and then let the old one write. */
  lemma {:induction false} OldRenewalComesOnTop(db: Db, id: nat, op: nat, n: nat)
    requires id < |db.alerts| && db.alerts[id].status != Cancelled && db.alerts[id].renewals + n == MAX_RENEWALS
    requires op in db.pending && db.pending[op].Renewing? && db.pending[op].id == id
    ensures Accepted(db, Renewals(n, id, db.alerts[id].creator) + [Finish(op)], id) == n + 1
    decreases n
  {
    var user := db.alerts[id].creator;
    var events := Renewals(n, id, user) + [Finish(op)];
    if n == 0 {
      assert events == [Finish(op)] && events[1..] == [];
      assert Accepted(Step(db, Finish(op)), [], id) == 0;
    } else {
      assert events[0] == Renew(id, user) && events[1..] == Renewals(n - 1, id, user) + [Finish(op)];
      OldRenewalComesOnTop(Step(db, Renew(id, user)), id, op, n - 1);
    }
  }

  /** One event before: begin the renewal that will write last. */
  lemma LateWriteExceeds(db: Db, id: nat, unused: nat)
    requires CountOk(db) && id < |db.alerts| && db.alerts[id].status != Cancelled && !Exhausted(db, id) && unused !in db.pending
    ensures exists events :: db.alerts[id].renewals + Accepted(db, events, id) > MAX_RENEWALS
  {
    var n := MAX_RENEWALS - db.alerts[id].renewals;
    var user := db.alerts[id].creator;
    if RenewalInFlight(db, id) {
      var op :| op in db.pending && db.pending[op].Renewing? && db.pending[op].id == id;
      OldRenewalComesOnTop(db, id, op, n);
    } else {
      var begin := BeginRenew(unused, id, user);
      var rest := Renewals(n, id, user) + [Finish(unused)];
      OldRenewalComesOnTop(Step(db, begin), id, unused, n);
      assert ([begin] + rest)[1..] == rest;
      assert Accepted(db, [begin] + rest, id) == n + 1;
    }
  }

  /** A cancelled alert can be resolved first, and then renewed like any other. */
  lemma ResolveFirst(db: Db, id: nat, op: nat)
    requires id < |db.alerts| && db.alerts[id].status == Cancelled && op !in db.pending
    ensures var events := [BeginResolve(op, id, db.alerts[id].creator), Finish(op)];
      && Run(db, events) == db.(alerts := db.alerts[id := db.alerts[id].(status := Resolved)])
      && Accepted(db, events, id) == 0
  {
    var begin := BeginResolve(op, id, db.alerts[id].creator);
    var events := [begin, Finish(op)];
    var begun := Step(db, begin);
    var done := Step(begun, Finish(op));
    assert events[1..] == [Finish(op)] && [Finish(op)][1..] == [];
    assert begun.pending - {op} == db.pending;
    assert Run(begun, [Finish(op)]) == Run(done, []);
    assert Accepted(begun, [Finish(op)], id) == Accepted(done, [], id) == 0;
  }

  /**
   * From a state some run takes the alert past three renewals in all, if and only if the
   * count is still below three or a renewal of it is in flight.
   */
  lemma RenewalLimitExactly(db: Db, id: nat)
    requires CountOk(db) && id < |db.alerts|
    ensures (exists events :: db.alerts[id].renewals + Accepted(db, events, id) > MAX_RENEWALS)
       <==> db.alerts[id].renewals < MAX_RENEWALS || RenewalInFlight(db, id)
  {
    if Exhausted(db, id) {
      forall events ensures Accepted(db, events, id) == 0 { ExhaustedAcceptsNone(db, events, id); }
    } else {
      UnusedId(db.pending.Keys);
      var op: nat :| op !in db.pending.Keys;
      if db.alerts[id].status != Cancelled {
        LateWriteExceeds(db, id, op);
      } else {
        var first := [BeginResolve(op, id, db.alerts[id].creator), Finish(op)];
        ResolveFirst(db, id, op);
        var resolved := Run(db, first);
        LateWriteExceeds(resolved, id, op);
        var later :| db.alerts[id].renewals + Accepted(resolved, later, id) > MAX_RENEWALS;
        AcceptedConcat(db, first, later, id);
        assert db.alerts[id].renewals + Accepted(db, first + later, id) > MAX_RENEWALS;
      }
    }
  }

  // --- a race from the start ------------------------------------------------------------------------------

  /** A cancellation that read before a resolution wrote overwrites it. */
  lemma CancelOverwritesResolve(start: int, creator: int)
    ensures var before := [Create(creator, None, ""), BeginCancel(0, 0, creator), BeginResolve(1, 0, creator), Finish(1)];
      && |Run(Init(start), before).alerts| == 1 && Run(Init(start), before).alerts[0].status == Resolved
      && |Run(Init(start), before + [Finish(0)]).alerts| == 1
      && Run(Init(start), before + [Finish(0)]).alerts[0].status == Cancelled
  {
    var s1 := Step(Init(start), Create(creator, None, ""));
    var s2 := Step(s1, BeginCancel(0, 0, creator));
    var s3 := Step(s2, BeginResolve(1, 0, creator));
    var s4 := Step(s3, Finish(1));
    var all := [Create(creator, None, ""), BeginCancel(0, 0, creator), BeginResolve(1, 0, creator), Finish(1)];
    assert all[1..] == [BeginCancel(0, 0, creator), BeginResolve(1, 0, creator), Finish(1)];
    assert all[1..][1..] == [BeginResolve(1, 0, creator), Finish(1)];
    assert all[1..][1..][1..] == [Finish(1)] && [Finish(1)][1..] == [] && [Finish(0)][1..] == [];
    assert Run(Init(start), all) == Run(s1, all[1..]) == Run(s2, all[1..][1..]) == Run(s3, [Finish(1)]) == Run(s4, []) == s4;
    RunConcat(Init(start), all, [Finish(0)]);
    assert Run(s4, [Finish(0)]) == Run(Step(s4, Finish(0)), []);
  }

  // --- the bound on an alert's life, with overlapping renewals ----------------------------------------------

  /** An ACTIVE alert expires no later than `r` renewals pay for. */
  ghost predicate LivesWithin(db: Db, id: nat, r: nat, h: nat) {
    && db.lastSweep <= db.now
    && (id < |db.alerts| && db.alerts[id].status == Active ==>
          db.lastSweep <= db.alerts[id].expiresAt <= db.alerts[id].createdAt + Allowance(r, h))
  }

  lemma StepLivesWithin(db: Db, e: Event, id: nat, r: nat, h: nat)
    requires LivesWithin(db, id, r, h) && db.now <= db.lastSweep + h
    ensures LivesWithin(Step(db, e), id, if Renews(db, e, id) then r + 1 else r, h)
  {
    AllowanceGrows(r, h);
  }

  lemma {:induction false} AllowanceGrows(r: nat, h: nat)
    ensures WEEK_MS <= Allowance(r, h) && Allowance(r + 1, h) == Allowance(r, h) + WEEK_MS + h
    ensures Allowance(r, h) + h == (r + 1) * (WEEK_MS + h)
  {
    if r > 0 { AllowanceGrows(r - 1, h); }
  }

  lemma {:induction false} RunLivesWithin(db: Db, events: seq<Event>, id: nat, r: nat, h: nat)
    requires LivesWithin(db, id, r, h) && Timely(db, events, h)
    ensures LivesWithin(Run(db, events), id, r + Accepted(db, events, id), h)
    ensures Run(db, events).now <= Run(db, events).lastSweep + h
    decreases |events|
  {
    if events != [] {
      StepLivesWithin(db, events[0], id, r, h);
      RunLivesWithin(Step(db, events[0]), events[1..], id, if Renews(db, events[0], id) then r + 1 else r, h);
    }
  }

  /** Overlapping or not, every accepted renewal buys at most a week and an interval of the expiry job. */
  lemma NoAlertOutlivesAcceptedRenewals(start: int, events: seq<Event>, h: nat, id: nat)
    requires Timely(Init(start), events, h)
    requires id < |Run(Init(start), events).alerts| && Run(Init(start), events).alerts[id].status == Active
    ensures var db := Run(Init(start), events);
      db.now <= db.alerts[id].createdAt + (Accepted(Init(start), events, id) + 1) * (WEEK_MS + h)
  {
    RunLivesWithin(Init(start), events, id, 0, h);
    AllowanceGrows(Accepted(Init(start), events, id), h);
  }

  /** Each week, at the very instant of expiry, one renewal that read long ago writes. */
  function LateWrites(n: nat, h: nat, week: nat): seq<Event>
    requires h > 0
  {
    if n == 0 then [] else LateWrites(n - 1, h, week) + (Walk(week, h) + [Finish(n - 1)])
  }

  lemma OneLateWrite(db: Db, h: nat, week: nat, creator: int, op: nat)
    requires h > 0 && week == WEEK_MS && Alone(db, creator) && db.now + week == db.alerts[0].expiresAt
    requires op in db.pending && db.pending[op] == Renewing(0, 0)
    ensures Timely(db, Walk(week, h) + [Finish(op)], h)
    ensures var after := Run(db, Walk(week, h) + [Finish(op)]);
      && Alone(after, creator) && after.now == db.now + week && after.now + week == after.alerts[0].expiresAt
      && after.alerts[0].createdAt == db.alerts[0].createdAt && after.pending == db.pending - {op}
  {
    WalkKeepsAlive(db, week, h, creator);
    var due := db.(now := db.now + week, lastSweep := db.now + week);
    assert [Finish(op)][1..] == [];
    assert Run(due, [Finish(op)]) == Run(Step(due, Finish(op)), []) == Step(due, Finish(op));
    assert Timely(Step(due, Finish(op)), [], h) && Timely(due, [Finish(op)], h);
    RunConcat(db, Walk(week, h), [Finish(op)]);
    TimelyConcat(db, Walk(week, h), [Finish(op)], h);
  }

  lemma {:induction false} LateWritesKeepAlive(db: Db, n: nat, h: nat, week: nat, creator: int)
    requires h > 0 && week == WEEK_MS && Alone(db, creator) && db.now + week == db.alerts[0].expiresAt
    requires forall k: nat :: k < n ==> k in db.pending && db.pending[k] == Renewing(0, 0)
    ensures Timely(db, LateWrites(n, h, week), h)
    ensures var after := Run(db, LateWrites(n, h, week));
      && Alone(after, creator) && after.now == db.now + n * week && after.now + week == after.alerts[0].expiresAt
      && after.alerts[0].createdAt == db.alerts[0].createdAt
      && (forall k: nat :: k >= n && k in db.pending ==> k in after.pending && after.pending[k] == db.pending[k])
    decreases n
  {
    if n > 0 {
      LateWritesKeepAlive(db, n - 1, h, week, creator);
      var mid := Run(db, LateWrites(n - 1, h, week));
      OneLateWrite(mid, h, week, creator, n - 1);
      RunConcat(db, LateWrites(n - 1, h, week), Walk(week, h) + [Finish(n - 1)]);
      TimelyConcat(db, LateWrites(n - 1, h, week), Walk(week, h) + [Finish(n - 1)], h);
    }
  }

  function EndlessLife(creator: int, n: nat, h: nat, week: nat): seq<Event>
    requires h > 0
  {
    [Create(creator, None, "")] + (Begins(n, creator) + LateWrites(n, h, week))
  }

  lemma {:induction false} BeginsAreTimely(db: Db, n: nat, user: int, h: nat)
    requires db.pending == map[] && |db.alerts| == 1 && RenewError(db.alerts, 0, user).None? && db.now <= db.lastSweep + h
    ensures Timely(db, Begins(n, user), h)
  {
    if n > 0 {
      BeginsAreTimely(db, n - 1, user, h);
      AllBegin(db, n - 1, user);
      var s, e := Run(db, Begins(n - 1, user)), BeginRenew(n - 1, 0, user);
      assert [e][1..] == [];
      assert Timely(Step(s, e), [], h) && Timely(s, [e], h);
      TimelyConcat(db, Begins(n - 1, user), [e], h);
    }
  }

  /** So with overlaps there is no bound: for every n a timely run has an alert ACTIVE n weeks after its creation. */
  lemma OverlapsLiveForEver(start: int, creator: int, n: nat, h: nat, week: nat)
    requires h > 0 && week == WEEK_MS
    ensures var events := EndlessLife(creator, n, h, week);
      var db := Run(Init(start), events);
      && Timely(Init(start), events, h)
      && |db.alerts| == 1 && db.alerts[0].status == Active && db.now == db.alerts[0].createdAt + n * WEEK_MS
  {
    var first := Create(creator, None, "");
    var rest := Begins(n, creator) + LateWrites(n, h, week);
    var created := Step(Init(start), first);
    AllBegin(created, n, creator);
    BeginsAreTimely(created, n, creator, h);
    var begun := Run(created, Begins(n, creator));
    LateWritesKeepAlive(begun, n, h, week, creator);
    RunConcat(created, Begins(n, creator), LateWrites(n, h, week));
    TimelyConcat(created, Begins(n, creator), LateWrites(n, h, week), h);
    assert ([first] + rest)[1..] == rest;
  }
}
