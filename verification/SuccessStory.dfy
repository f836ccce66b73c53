/**
 * The "pet is home" fan-out (`processSuccessStory` in
 * src/notification/notification-queue.processor.ts). Any number of workers for
 * one alert interleave at every database call, and may crash at any of them.
 */
module SuccessStory {
  import opened Common

  /** Where a worker stands. Each phase ends with one database call. */
  datatype Phase =
    | Reading
    | Claiming
    | Gathering
    | Fetching(recipients: set<int>)
    | Pushing(recipients: set<int>, devices: seq<Device>, pushed: nat)
    | Mailing(recipients: set<int>, devices: seq<Device>, left: set<int>)
    | Finished(recipients: set<int>, devices: seq<Device>)
    | Skipped
    | Crashed

  /**
   * What the workers share. `story` holds the devices of success-story push rows
   * in order of insertion, `mailed` the users written to.
   */
  datatype Shared = Shared(found: bool, hasSnapshot: bool, creator: int, sentAt: Option<int>, story: seq<int>, mailed: seq<int>)

  /** What the claiming worker was answered when it gathered helpers and when it fetched devices. */
  datatype Snapshot = Snapshot(notified: set<int>, reporters: set<int>, reachable: seq<Device>)

  /** `claimer` and `seen` remember who passed the claim and what it read, for the specification. */
  datatype State = State(shared: Shared, workers: map<nat, Phase>, claimer: Option<nat>, seen: Snapshot)

  /** A worker's next call, with what the environment answers. */
  datatype Action =
    | Start
    | Advance(now: int, notified: set<int>, reporters: set<int>, reachable: seq<Device>, optedIn: bool, next: int)
    | Crash

  /** Notified users and sighting reporters, without the creator. */
  function Helpers(notified: set<int>, reporters: set<int>, creator: int): set<int> {
    notified + reporters - {creator}
  }

  /** Reachable devices of the recipients, as `findMany` returns them. */
  function DevicesOf(reachable: seq<Device>, recipients: set<int>): (r: seq<Device>)
    ensures forall d :: d in r <==> d in reachable && d.user in recipients
  {
    if reachable == [] then []
    else (if reachable[0].user in recipients then [reachable[0]] else []) + DevicesOf(reachable[1..], recipients)
  }

  ghost predicate DistinctIds(ds: seq<Device>) {
    forall i, j :: 0 <= i < j < |ds| ==> ds[i].id != ds[j].id
  }

  /** One call of a worker: the shared tables and its next phase. */
  function Call(shared: Shared, phase: Phase, a: Action): (Shared, Phase)
    requires a.Advance?
  {
    match phase
    case Reading =>
      (shared, if !shared.found || !shared.hasSnapshot || shared.sentAt.Some? then Skipped else Claiming)
    case Claiming =>
      if shared.sentAt.Some? then (shared, Skipped) else (shared.(sentAt := Some(a.now)), Gathering)
    case Gathering =>
      var recipients := Helpers(a.notified, a.reporters, shared.creator);
      (shared, if recipients == {} then Finished({}, []) else Fetching(recipients))
    case Fetching(recipients) =>
      (shared, Pushing(recipients, DevicesOf(a.reachable, recipients), 0))
    case Pushing(recipients, devices, pushed) =>
      if pushed < |devices|
      then (shared.(story := shared.story + [devices[pushed].id]), Pushing(recipients, devices, pushed + 1))
      else (shared, Mailing(recipients, devices, recipients))
    case Mailing(recipients, devices, left) =>
      if left == {} then (shared, Finished(recipients, devices))
      else if a.next !in left then (shared, phase)
      else (if a.optedIn then shared.(mailed := shared.mailed + [a.next]) else shared,
            Mailing(recipients, devices, left - {a.next}))
    case _ => (shared, phase)
  }

  ghost predicate Possible(a: Action) {
    a.Advance? ==> DistinctIds(a.reachable)
  }

  ghost function Step(s: State, w: nat, a: Action): State {
    if !Possible(a) then s
    else if a.Start? then (if w in s.workers then s else s.(workers := s.workers[w := Reading]))
    else if w !in s.workers then s
    else if a.Crash? then (if s.workers[w].Finished? then s else s.(workers := s.workers[w := Crashed]))
    else
      var (shared, phase) := Call(s.shared, s.workers[w], a);
      State(shared, s.workers[w := phase],
            if s.workers[w].Claiming? && phase.Gathering? then Some(w) else s.claimer,
            Observe(s.seen, s.workers[w], a))
  }

  function Observe(seen: Snapshot, p: Phase, a: Action): Snapshot
    requires a.Advance?
  {
    if p.Gathering? then seen.(notified := a.notified, reporters := a.reporters)
    else if p.Fetching? then seen.(reachable := a.reachable)
    else seen
  }

  datatype Event = Event(worker: nat, action: Action)

  ghost function Run(s: State, events: seq<Event>): State
    decreases |events|
  {
    if events == [] then s else Run(Step(s, events[0].worker, events[0].action), events[1..])
  }

  function Init(found: bool, hasSnapshot: bool, creator: int): State {
    State(Shared(found, hasSnapshot, creator, None, [], []), map[], None, Snapshot({}, {}, []))
  }

  // --- the invariant ----------------------------------------------------------------

  /** Phases behind the claim. */
  predicate PastClaim(p: Phase) {
    p.Gathering? || p.Fetching? || p.Pushing? || p.Mailing? || p.Finished?
  }

  function Ids(ds: seq<Device>): (r: seq<int>)
    ensures |r| == |ds| && forall i :: 0 <= i < |ds| ==> r[i] == ds[i].id
  {
    seq(|ds|, i requires 0 <= i < |ds| => ds[i].id)
  }

  /** The worker's recipients and devices are those of its snapshot. */
  ghost predicate Targets(seen: Snapshot, recipients: set<int>, devices: seq<Device>, creator: int) {
    && recipients == Helpers(seen.notified, seen.reporters, creator)
    && DistinctIds(seen.reachable)
    && devices == DevicesOf(seen.reachable, recipients)
  }

  /** What the tables hold, seen from the worker that passed the claim. */
  ghost predicate Progress(shared: Shared, seen: Snapshot, p: Phase) {
    match p
    case Gathering => shared.story == [] && shared.mailed == [] && seen.reachable == []
    case Fetching(recipients) =>
      && shared.story == [] && shared.mailed == []
      && recipients == Helpers(seen.notified, seen.reporters, shared.creator)
    case Pushing(recipients, devices, pushed) =>
      && Targets(seen, recipients, devices, shared.creator) && shared.mailed == []
      && pushed <= |devices| && shared.story == Ids(devices[..pushed])
    case Mailing(recipients, devices, left) =>
      && Targets(seen, recipients, devices, shared.creator) && shared.story == Ids(devices)
      && left <= recipients
      && (forall i :: 0 <= i < |shared.mailed| ==> shared.mailed[i] in recipients - left)
    case Finished(recipients, devices) =>
      && Targets(seen, recipients, devices, shared.creator) && shared.story == Ids(devices)
      && (forall i :: 0 <= i < |shared.mailed| ==> shared.mailed[i] in recipients)
    case _ => true
  }

  ghost predicate ClaimerOk(s: State, w: nat) {
    && w in s.workers
    && (PastClaim(s.workers[w]) || s.workers[w].Crashed?)
    && Progress(s.shared, s.seen, s.workers[w])
  }

  /** A reachable device, when the claimer looked, of a helper. */
  ghost predicate IsHelpersDevice(seen: Snapshot, creator: int, id: int) {
    exists d :: d in seen.reachable && d.id == id && d.user in Helpers(seen.notified, seen.reporters, creator)
  }

  /** Whatever became of the claimer, what is in the tables went to helpers. */
  ghost predicate ForHelpers(shared: Shared, seen: Snapshot) {
    && DistinctIds(seen.reachable)
    && (forall i :: 0 <= i < |shared.story| ==> IsHelpersDevice(seen, shared.creator, shared.story[i]))
    && (forall i :: 0 <= i < |shared.mailed| ==>
          shared.mailed[i] in Helpers(seen.notified, seen.reporters, shared.creator))
  }

  ghost predicate Inv(s: State) {
    && (s.claimer.Some? <==> s.shared.sentAt.Some?)
    && (s.claimer.None? ==> s.shared.story == [] && s.shared.mailed == [] && s.seen.reachable == [])
    && (s.claimer.Some? ==> ClaimerOk(s, s.claimer.value))
    && (forall w :: w in s.workers && PastClaim(s.workers[w]) ==> s.claimer == Some(w))
    && Once(s.shared) && ForHelpers(s.shared, s.seen)
  }

  lemma {:induction false} DevicesOfDistinct(reachable: seq<Device>, recipients: set<int>)
    requires DistinctIds(reachable)
    ensures DistinctIds(DevicesOf(reachable, recipients))
  {
    if reachable != [] {
      DevicesOfDistinct(reachable[1..], recipients);
      var rest := DevicesOf(reachable[1..], recipients);
      forall j | 0 <= j < |rest| ensures rest[j].id != reachable[0].id {
        assert rest[j] in rest;
        var k :| 0 <= k < |reachable[1..]| && reachable[1..][k] == rest[j];
      }
    }
  }

  ghost predicate Once(shared: Shared) {
    NoRepeats(shared.story) && NoRepeats(shared.mailed) && shared.creator !in shared.mailed
  }

  /** After its call the claiming worker has kept its progress and repeated no row and no email. */
  ghost predicate Advanced(shared: Shared, seen: Snapshot, p: Phase, a: Action)
    requires a.Advance?
  {
    var (after, next) := Call(shared, p, a);
    && PastClaim(next) && Progress(after, Observe(seen, p, a), next)
    && after.creator == shared.creator && after.sentAt == shared.sentAt
    && Once(after) && ForHelpers(after, Observe(seen, p, a))
  }

  lemma PushAdvances(shared: Shared, seen: Snapshot, p: Phase, a: Action)
    requires a.Advance? && p.Pushing? && Progress(shared, seen, p) && Once(shared) && ForHelpers(shared, seen)
    ensures Advanced(shared, seen, p, a)
  {
    if p.pushed < |p.devices| {
      DevicesOfDistinct(seen.reachable, p.recipients);
      assert Ids(p.devices[..p.pushed + 1]) == Ids(p.devices[..p.pushed]) + [p.devices[p.pushed].id];
      assert p.devices[p.pushed] in p.devices;
      assert IsHelpersDevice(seen, shared.creator, p.devices[p.pushed].id);
    } else {
      assert p.devices[..p.pushed] == p.devices;
    }
  }

  lemma MailAdvances(shared: Shared, seen: Snapshot, p: Phase, a: Action)
    requires a.Advance? && p.Mailing? && Progress(shared, seen, p) && Once(shared) && ForHelpers(shared, seen)
    ensures Advanced(shared, seen, p, a)
  {
  }

  lemma CallKeepsProgress(shared: Shared, seen: Snapshot, p: Phase, a: Action)
    requires a.Advance? && Possible(a) && PastClaim(p) && Progress(shared, seen, p) && Once(shared) && ForHelpers(shared, seen)
    ensures Advanced(shared, seen, p, a)
  {
    match p
    case Fetching(recipients) =>
      assert DevicesOf(a.reachable, recipients)[..0] == [] && Ids([]) == [];
    case Pushing(_, _, _) => PushAdvances(shared, seen, p, a);
    case Mailing(_, _, _) => MailAdvances(shared, seen, p, a);
    case _ =>
  }

  lemma StepKeepsInv(s: State, w: nat, a: Action)
    requires Inv(s)
    ensures Inv(Step(s, w, a))
  {
    if Possible(a) && a.Advance? && w in s.workers {
      if PastClaim(s.workers[w]) {
        CallKeepsProgress(s.shared, s.seen, s.workers[w], a);
      } else if s.workers[w].Claiming? && s.shared.sentAt.None? {
        assert Step(s, w, a).workers[w] == Gathering;
      } else {
        assert Step(s, w, a) == s.(workers := Step(s, w, a).workers);
      }
    }
  }

  lemma {:induction false} RunKeepsInv(s: State, events: seq<Event>)
    requires Inv(s)
    ensures Inv(Run(s, events))
    decreases |events|
  {
    if events != [] {
      StepKeepsInv(s, events[0].worker, events[0].action);
      RunKeepsInv(Step(s, events[0].worker, events[0].action), events[1..]);
    }
  }

  // --- what every interleaving guarantees ---------------------------------------------

  /** At most one worker ever passes the claim. */
  lemma ClaimIsFinal(s: State, events: seq<Event>)
    requires Inv(s)
    ensures s.claimer.Some? ==> Run(s, events).claimer == s.claimer
    ensures var workers := Run(s, events).workers;
      forall v, w :: v in workers && w in workers && PastClaim(workers[v]) && PastClaim(workers[w]) ==> v == w
  {
    RunKeepsInv(s, events);
    ClaimerStays(s, events);
  }

  lemma {:induction false} ClaimerStays(s: State, events: seq<Event>)
    requires Inv(s)
    ensures s.claimer.Some? ==> Run(s, events).claimer == s.claimer
    decreases |events|
  {
    if events != [] {
      StepKeepsInv(s, events[0].worker, events[0].action);
      ClaimerStays(Step(s, events[0].worker, events[0].action), events[1..]);
    }
  }

  /**
   * In every reachable state, with the claimer unfinished, finished or crashed: each device
   * has at most one story push and each user at most one email; every push went to a device
   * of a helper, none to a device of the creator; and every email to a helper.
   */
  lemma AtMostOncePerDevice(found: bool, hasSnapshot: bool, creator: int, events: seq<Event>)
    ensures var s := Run(Init(found, hasSnapshot, creator), events);
      && NoRepeats(s.shared.story) && NoRepeats(s.shared.mailed)
      && (forall i :: 0 <= i < |s.shared.story| ==> IsHelpersDevice(s.seen, creator, s.shared.story[i]))
      && (forall d :: d in s.seen.reachable && d.user == creator ==> d.id !in s.shared.story)
      && (forall i :: 0 <= i < |s.shared.mailed| ==> s.shared.mailed[i] in Helpers(s.seen.notified, s.seen.reporters, creator))
  {
    var s := Run(Init(found, hasSnapshot, creator), events);
    RunKeepsInv(Init(found, hasSnapshot, creator), events);
    CreatorStays(Init(found, hasSnapshot, creator), events);
    forall d | d in s.seen.reachable && d.user == creator ensures d.id !in s.shared.story {
      CreatorsDeviceIsNoHelpers(s.seen, creator, d);
    }
  }

  /** Device ids name one device, so one of the creator's is not also a helper's. */
  lemma CreatorsDeviceIsNoHelpers(seen: Snapshot, creator: int, d: Device)
    requires DistinctIds(seen.reachable) && d in seen.reachable && d.user == creator
    ensures !IsHelpersDevice(seen, creator, d.id)
  {
    var i :| 0 <= i < |seen.reachable| && seen.reachable[i] == d;
    forall other | other in seen.reachable && other.id == d.id ensures other == d {
      var j :| 0 <= j < |seen.reachable| && seen.reachable[j] == other;
    }
  }

  lemma {:induction false} CreatorStays(s: State, events: seq<Event>)
    ensures Run(s, events).shared.creator == s.shared.creator
    decreases |events|
  {
    if events != [] { CreatorStays(Step(s, events[0].worker, events[0].action), events[1..]); }
  }

  /**
   * If the claiming worker finishes, every device that was reachable when it looked has
   * exactly one story row if its user is a helper (a notified user or a sighting reporter,
   * not the creator) and none otherwise; the creator's devices get none.
   */
  lemma FinishedReachesEveryHelper(found: bool, hasSnapshot: bool, creator: int, events: seq<Event>, w: nat, d: Device)
    requires var s := Run(Init(found, hasSnapshot, creator), events); w in s.workers && s.workers[w].Finished?
    requires d in Run(Init(found, hasSnapshot, creator), events).seen.reachable
    ensures var s := Run(Init(found, hasSnapshot, creator), events);
      Times(s.shared.story, d.id)
        == if d.user != creator && (d.user in s.seen.notified || d.user in s.seen.reporters) then 1 else 0
  {
    var s := Run(Init(found, hasSnapshot, creator), events);
    RunKeepsInv(Init(found, hasSnapshot, creator), events);
    CreatorStays(Init(found, hasSnapshot, creator), events);
    var p := s.workers[w];
    TimesNoRepeats(s.shared.story, d.id);
    if d.user in p.recipients {
      var i :| 0 <= i < |p.devices| && p.devices[i] == d;
      assert s.shared.story[i] == d.id;
    } else {
      OtherDevicesLeftOut(s.seen.reachable, p.recipients, d);
    }
  }

  lemma OtherDevicesLeftOut(reachable: seq<Device>, recipients: set<int>, d: Device)
    requires DistinctIds(reachable) && d in reachable && d.user !in recipients
    ensures d.id !in Ids(DevicesOf(reachable, recipients))
  {
    var ds := DevicesOf(reachable, recipients);
    forall i | 0 <= i < |ds| ensures ds[i].id != d.id {
      assert ds[i] in ds;
      var j :| 0 <= j < |reachable| && reachable[j] == ds[i];
      var k :| 0 <= k < |reachable| && reachable[k] == d;
    }
  }

  /** If the claiming worker crashes, nothing more is ever sent: a retry finds the claim taken. */
  lemma {:induction false} CrashAfterClaimIsFinal(s: State, events: seq<Event>)
    requires Inv(s) && s.claimer.Some? && s.workers[s.claimer.value].Crashed?
    ensures Run(s, events).shared == s.shared
    decreases |events|
  {
    if events != [] {
      StepKeepsInv(s, events[0].worker, events[0].action);
      assert Step(s, events[0].worker, events[0].action).shared == s.shared;
      CrashAfterClaimIsFinal(Step(s, events[0].worker, events[0].action), events[1..]);
    }
  }

  // --- without the alert or its snapshot ----------------------------------------------------

  ghost predicate NobodyReadIt(s: State) {
    forall w :: w in s.workers ==> s.workers[w] in {Reading, Skipped, Crashed}
  }

  /** Whatever the workers do, an alert that is gone or carries no snapshot is never claimed and nobody hears of it. */
  lemma {:induction false} NoSnapshotNoStory(s: State, events: seq<Event>)
    requires NobodyReadIt(s) && (!s.shared.found || !s.shared.hasSnapshot)
    ensures Run(s, events).shared == s.shared
    decreases |events|
  {
    if events != [] {
      NoSnapshotNoStory(Step(s, events[0].worker, events[0].action), events[1..]);
    }
  }

  // --- one worker, undisturbed ------------------------------------------------------------------

  ghost function Move(w: nat): Event {
    Event(w, Advance(0, {}, {}, [], false, 0))
  }

  ghost function Pushes(w: nat, n: nat): seq<Event> {
    if n == 0 then [] else [Move(w)] + Pushes(w, n - 1)
  }

  ghost function Mails(w: nat, order: seq<int>, optedIn: set<int>): seq<Event> {
    if order == [] then [] else [Mail(w, order[0], optedIn)] + Mails(w, order[1..], optedIn)
  }

  /** Those of the list who opted in, in its order. */
  function Wanted(order: seq<int>, optedIn: set<int>): (r: seq<int>)
    ensures forall u :: u in r <==> u in order && u in optedIn
  {
    if order == [] then []
    else if order[0] in optedIn then [order[0]] + Wanted(order[1..], optedIn)
    else Wanted(order[1..], optedIn)
  }

  lemma {:induction false} RunConcat(s: State, a: seq<Event>, b: seq<Event>)
    ensures Run(s, a + b) == Run(Run(s, a), b)
    decreases |a|
  {
    if a == [] {
      assert a + b == b;
    } else {
      assert (a + b)[1..] == a[1..] + b;
      RunConcat(Step(s, a[0].worker, a[0].action), a[1..], b);
    }
  }

  lemma RunOne(s: State, e: Event)
    ensures Run(s, [e]) == Step(s, e.worker, e.action)
  {
    assert [e][1..] == [];
  }

  lemma PushStep(s: State, w: nat)
    requires w in s.workers && s.workers[w].Pushing? && s.workers[w].pushed < |s.workers[w].devices|
    ensures var p := s.workers[w];
      Step(s, w, Move(w).action) == s.(shared := s.shared.(story := s.shared.story + [p.devices[p.pushed].id]),
                                       workers := s.workers[w := p.(pushed := p.pushed + 1)])
  {
    assert DistinctIds([]);
  }

  lemma {:induction false} PushesRun(s: State, w: nat, n: nat)
    requires w in s.workers && s.workers[w].Pushing? && s.workers[w].pushed + n == |s.workers[w].devices|
    ensures var p := s.workers[w];
      Run(s, Pushes(w, n)) == s.(shared := s.shared.(story := s.shared.story + Ids(p.devices[p.pushed..])),
                                 workers := s.workers[w := p.(pushed := |p.devices|)])
    decreases n
  {
    var p := s.workers[w];
    if n == 0 {
      assert Ids(p.devices[p.pushed..]) == [] && s.workers[w := p] == s.workers;
    } else {
      PushStep(s, w);
      var next := Step(s, w, Move(w).action);
      PushesRun(next, w, n - 1);
      assert Pushes(w, n)[1..] == Pushes(w, n - 1);
      assert Run(s, Pushes(w, n)) == Run(next, Pushes(w, n - 1));
      IdsFrom(p.devices, p.pushed);
      Regroup(s.shared.story, [p.devices[p.pushed].id], Ids(p.devices[p.pushed + 1..]));
    }
  }

  lemma IdsFrom(devices: seq<Device>, k: nat)
    requires k < |devices|
    ensures Ids(devices[k..]) == [devices[k].id] + Ids(devices[k + 1..])
  {
  }

  /** The list names every one of `users` once, and nobody else. */
  ghost predicate Lists(order: seq<int>, users: set<int>) {
    NoRepeats(order) && forall u :: u in order <==> u in users
  }

  lemma ListsRest(order: seq<int>, users: set<int>)
    requires Lists(order, users) && order != []
    ensures order[0] in users && Lists(order[1..], users - {order[0]})
  {
    assert order[0] in order;
    assert forall u :: u in order <==> u == order[0] || u in order[1..];
    forall u ensures u in order[1..] <==> u in users - {order[0]} {
      if u in order[1..] {
        var i :| 0 <= i < |order[1..]| && order[1..][i] == u;
        assert order[i + 1] != order[0];
      }
    }
  }

  ghost function Mail(w: nat, user: int, optedIn: set<int>): Event {
    Event(w, Advance(0, {}, {}, [], user in optedIn, user))
  }

  lemma MailStep(s: State, w: nat, user: int, optedIn: set<int>)
    requires w in s.workers && s.workers[w].Mailing? && user in s.workers[w].left
    ensures Step(s, w, Mail(w, user, optedIn).action)
         == s.(shared := s.shared.(mailed := s.shared.mailed + if user in optedIn then [user] else []),
               workers := s.workers[w := s.workers[w].(left := s.workers[w].left - {user})])
  {
    assert DistinctIds([]);
  }

  lemma {:induction false} MailsRun(s: State, w: nat, order: seq<int>, optedIn: set<int>)
    requires w in s.workers && s.workers[w].Mailing? && Lists(order, s.workers[w].left)
    ensures Run(s, Mails(w, order, optedIn))
         == s.(shared := s.shared.(mailed := s.shared.mailed + Wanted(order, optedIn)),
               workers := s.workers[w := s.workers[w].(left := {})])
    decreases |order|
  {
    var p := s.workers[w];
    if order == [] {
      EmptyOrSome(p.left);
      assert s.workers[w := p] == s.workers;
    } else {
      var e := Mail(w, order[0], optedIn);
      ListsRest(order, p.left);
      MailStep(s, w, order[0], optedIn);
      var next := Step(s, w, e.action);
      MailsRun(next, w, order[1..], optedIn);
      assert Mails(w, order, optedIn)[1..] == Mails(w, order[1..], optedIn);
      assert Run(s, Mails(w, order, optedIn)) == Run(next, Mails(w, order[1..], optedIn));
      if order[0] in optedIn {
        Regroup(s.shared.mailed, [order[0]], Wanted(order[1..], optedIn));
      } else {
        assert s.shared.mailed + [] == s.shared.mailed;
      }
    }
  }

  /** A worker's claim, with its two queries. */
  ghost function Opening(w: nat, now: int, notified: set<int>, reporters: set<int>): seq<Event> {
    [Event(w, Start), Move(w), Event(w, Advance(now, {}, {}, [], false, 0)), Event(w, Advance(0, notified, reporters, [], false, 0))]
  }

  /** What an undisturbed worker writes: the claim, the helpers' devices in the query's order, the opted-in helpers. */
  ghost predicate Tells(before: Shared, after: Shared, now: int, helpers: set<int>, reachable: seq<Device>, order: seq<int>, optedIn: set<int>) {
    && after.sentAt == Some(now) && after.story == before.story + Ids(DevicesOf(reachable, helpers))
    && after.mailed == before.mailed + Wanted(order, optedIn)
    && after.found == before.found && after.hasSnapshot == before.hasSnapshot && after.creator == before.creator
  }

  /** The answer of the device query: the reachable devices of the recipients, as often as they stand there. */
  lemma {:induction false} DevicesOfExactly(reachable: seq<Device>, recipients: set<int>, d: Device)
    ensures Times(DevicesOf(reachable, recipients), d) == if d.user in recipients then Times(reachable, d) else 0
  {
    if reachable != [] {
      DevicesOfExactly(reachable[1..], recipients, d);
      var first := if reachable[0].user in recipients then [reachable[0]] else [];
      TimesConcat(first, DevicesOf(reachable[1..], recipients), d);
      TimesOne(reachable[0], d);
    }
  }

  ghost predicate Unclaimed(s: State, w: nat) {
    w !in s.workers && s.shared.found && s.shared.hasSnapshot && s.shared.sentAt.None?
  }

  lemma OpeningRuns(s: State, w: nat, now: int, notified: set<int>, reporters: set<int>) returns (claimed: State)
    requires Unclaimed(s, w)
    ensures claimed == Run(s, Opening(w, now, notified, reporters))
    ensures claimed.shared == s.shared.(sentAt := Some(now))
    ensures var helpers := notified + reporters - {s.shared.creator};
      w in claimed.workers && claimed.workers[w] == if helpers == {} then Finished({}, []) else Fetching(helpers)
  {
    var events := Opening(w, now, notified, reporters);
    var s1 := Step(s, w, Start);
    var s2 := Step(s1, w, Move(w).action);
    var s3 := Step(s2, w, events[2].action);
    claimed := Step(s3, w, events[3].action);
    assert events[1..][1..][1..] == [events[3]];
    RunOne(s3, events[3]);
    assert Run(s2, events[1..][1..]) == Run(s3, events[1..][1..][1..]);
  }

  /** A worker that nothing interrupts makes exactly these writes. */
  lemma SoloTells(s: State, w: nat, now: int, notified: set<int>, reporters: set<int>, reachable: seq<Device>, order: seq<int>, optedIn: set<int>)
    returns (events: seq<Event>)
    requires Unclaimed(s, w) && DistinctIds(reachable) && Lists(order, notified + reporters - {s.shared.creator})
    ensures Tells(s.shared, Run(s, events).shared, now, notified + reporters - {s.shared.creator}, reachable, order, optedIn)
    ensures w in Run(s, events).workers && Run(s, events).workers[w].Finished?
  {
    var helpers := notified + reporters - {s.shared.creator};
    var claimed := OpeningRuns(s, w, now, notified, reporters);
    events := Opening(w, now, notified, reporters);
    if helpers == {} {
      NoDevicesForNobody(reachable);
      assert order == [] by {
        if order != [] { ListsRest(order, {}); }
      }
      assert Ids([]) == [];
    } else {
      var rest := SoloWrites(claimed, w, reachable, helpers, order, optedIn);
      RunConcat(s, events, rest);
      events := events + rest;
    }
  }

  lemma SoloPushes(s: State, w: nat, reachable: seq<Device>, recipients: set<int>) returns (events: seq<Event>)
    requires w in s.workers && s.workers[w] == Fetching(recipients) && DistinctIds(reachable)
    ensures var after, devices := Run(s, events), DevicesOf(reachable, recipients);
      && w in after.workers && after.workers[w] == Mailing(recipients, devices, recipients)
      && after.shared == s.shared.(story := s.shared.story + Ids(devices))
  {
    var devices := DevicesOf(reachable, recipients);
    var fetch := Event(w, Advance(0, {}, {}, reachable, false, 0));
    var s1 := Step(s, w, fetch.action);
    PushesRun(s1, w, |devices|);
    assert devices[0..] == devices;
    var s2 := Run(s1, Pushes(w, |devices|));
    RunOne(s, fetch);
    RunOne(s2, Move(w));
    RunConcat(s, [fetch], Pushes(w, |devices|));
    RunConcat(s, [fetch] + Pushes(w, |devices|), [Move(w)]);
    events := [fetch] + Pushes(w, |devices|) + [Move(w)];
  }

  lemma SoloWrites(s: State, w: nat, reachable: seq<Device>, recipients: set<int>, order: seq<int>, optedIn: set<int>)
    returns (events: seq<Event>)
    requires w in s.workers && s.workers[w] == Fetching(recipients) && DistinctIds(reachable) && Lists(order, recipients)
    ensures w in Run(s, events).workers && Run(s, events).workers[w].Finished?
    ensures Run(s, events).shared
         == s.shared.(story := s.shared.story + Ids(DevicesOf(reachable, recipients)),
                      mailed := s.shared.mailed + Wanted(order, optedIn))
  {
    var pushes := SoloPushes(s, w, reachable, recipients);
    var s1 := Run(s, pushes);
    MailsRun(s1, w, order, optedIn);
    var s2 := Run(s1, Mails(w, order, optedIn));
    RunOne(s2, Move(w));
    RunConcat(s, pushes, Mails(w, order, optedIn));
    RunConcat(s, pushes + Mails(w, order, optedIn), [Move(w)]);
    events := pushes + Mails(w, order, optedIn) + [Move(w)];
  }

  // --- the job as one worker runs it --------------------------------------------------------

  /** The alert row and the tables the job writes. */
  class SuccessStoryJob {
    const creator: int
    var sentAt: Option<int>
    var story: seq<int>
    var mailed: seq<int>

    constructor (creator: int)
      ensures this.creator == creator && sentAt == None && story == [] && mailed == []
    {
      this.creator := creator;
      sentAt, story, mailed := None, [], [];
    }

    /** The tables as the workers of `Step` share them. */
    ghost function Tables(alertExists: bool, hasSnapshot: bool): Shared
      reads this
    {
      Shared(alertExists, hasSnapshot, creator, sentAt, story, mailed)
    }

    /**
     * `processSuccessStory` without interruption: the first run with a snapshot claims the
     * alert, writes one row per reachable device of a helper, and one email per opted-in
     * helper; any other run changes nothing.
     */
    method ProcessSuccessStory(
      alertExists: bool, hasSnapshot: bool, now: int, notified: seq<int>, reporters: seq<int>,
      reachable: seq<Device>, optedIn: set<int>)
      returns (queued: nat)
      modifies this
      ensures !alertExists || !hasSnapshot || old(sentAt).Some? ==>
        sentAt == old(sentAt) && story == old(story) && mailed == old(mailed) && queued == 0
      ensures alertExists && hasSnapshot && old(sentAt).None? ==>
        var helpers := (set u | u in notified) + (set u | u in reporters) - {creator};
        && sentAt == Some(now)
        && story == old(story) + Ids(DevicesOf(reachable, helpers)) && queued == |DevicesOf(reachable, helpers)|
        && old(mailed) <= mailed && NoRepeats(mailed[|old(mailed)|..])
        && (forall u :: u in mailed[|old(mailed)|..] <==> u in helpers && u in optedIn)
      ensures DistinctIds(reachable) ==>
        exists events :: Run(Idle(old(Tables(alertExists, hasSnapshot))), events).shared == Tables(alertExists, hasSnapshot)
    {
      queued := 0;
      if !alertExists || !hasSnapshot || sentAt.Some? {
        assert Run(Idle(Tables(alertExists, hasSnapshot)), []).shared == Tables(alertExists, hasSnapshot);
        return;
      }
      sentAt := Some(now);
      var recipientIds := (set u | u in notified) + (set u | u in reporters) - {creator};
      ghost var order: seq<int> := [];
      if recipientIds == {} {
        NoDevicesForNobody(reachable);
        assert mailed[|mailed|..] == [] && story == old(story) + Ids([]);
      } else {
        queued := PushToDevices(DevicesOf(reachable, recipientIds));
        order := MailHelpers(recipientIds, optedIn);
      }
      if DistinctIds(reachable) {
        ghost var before := old(Tables(alertExists, hasSnapshot));
        ghost var asked, seen := (set u | u in notified), (set u | u in reporters);
        ghost var events := SoloTells(Idle(before), 0, now, asked, seen, reachable, order, optedIn);
        assert Tells(before, Tables(alertExists, hasSnapshot), now, recipientIds, reachable, order, optedIn);
      }
    }

    /** One push row per device, in order. */
    method PushToDevices(devices: seq<Device>) returns (queued: nat)
      modifies this`story
      ensures story == old(story) + Ids(devices) && queued == |devices|
    {
      queued := 0;
      assert Ids(devices)[..0] == [];
      for i := 0 to |devices|
        invariant story == old(story) + Ids(devices)[..i] && queued == i
      {
        assert Ids(devices)[..i + 1] == Ids(devices)[..i] + [devices[i].id];
        story := story + [devices[i].id];
        queued := queued + 1;
      }
      assert Ids(devices)[..|devices|] == Ids(devices);
    }

    /** One thank-you email per opted-in recipient. */
    method MailHelpers(recipients: set<int>, optedIn: set<int>) returns (ghost order: seq<int>)
      modifies this`mailed
      ensures Lists(order, recipients) && mailed == old(mailed) + Wanted(order, optedIn)
      ensures old(mailed) <= mailed && NoRepeats(mailed[|old(mailed)|..])
      ensures forall u :: u in mailed[|old(mailed)|..] <==> u in recipients && u in optedIn
    {
      var left := recipients;
      order := [];
      assert mailed[|mailed|..] == [];
      while left != {}
        invariant left <= recipients && old(mailed) <= mailed
        invariant Lists(order, recipients - left)
        invariant mailed == old(mailed) + Wanted(order, optedIn)
        invariant NoRepeats(mailed[|old(mailed)|..])
        invariant forall u :: u in mailed[|old(mailed)|..] <==> u in recipients - left && u in optedIn
        decreases |left|
      {
        EmptyOrSome(left);
        var u: int :| u in left;
        ghost var before := mailed[|old(mailed)|..];
        WantedAppend(order, u, optedIn);
        assert u !in order;
        order := order + [u];
        if u in optedIn {
          mailed := mailed + [u];
          assert mailed[|old(mailed)|..] == before + [u];
        }
        left := left - {u};
      }
    }
  }

  /** No worker has started. */
  function Idle(shared: Shared): State {
    State(shared, map[], None, Snapshot({}, {}, []))
  }

  lemma {:induction false} WantedAppend(order: seq<int>, u: int, optedIn: set<int>)
    ensures Wanted(order + [u], optedIn) == Wanted(order, optedIn) + if u in optedIn then [u] else []
  {
    if order == [] {
      assert order + [u] == [u] && [u][1..] == [];
    } else {
      assert (order + [u])[1..] == order[1..] + [u];
      WantedAppend(order[1..], u, optedIn);
      Regroup([order[0]], Wanted(order[1..], optedIn), if u in optedIn then [u] else []);
    }
  }

  lemma EmptyOrSome(users: set<int>)
    ensures users == {} || exists u: int :: u in users
  {
    if forall u: int :: u !in users { assert users == {}; }
  }

  lemma {:induction false} NoDevicesForNobody(reachable: seq<Device>)
    ensures DevicesOf(reachable, {}) == []
  {
    if reachable != [] { NoDevicesForNobody(reachable[1..]); }
  }
}
