/**
 * Wave jobs that handle one user at the same time. The guards of a turn and its insertions are
 * separate calls (src/notification/notification-queue.processor.ts), so here a turn first
 * checks and then inserts device by device, and anything may run in between.
 */
module WaveRaces {
  import opened Common
  import opened Matching
  import opened Waves

  /** A turn past its guards; `seen` is how many rows the table held when it checked. */
  datatype Flight = Flight(turn: Turn, done: nat, ticket: nat, seen: nat)

  /** Which turn inserted a row, and what that turn had seen; rows from elsewhere have none. */
  datatype Maker = Maker(ticket: nat, seen: nat)

  /** `makers` runs parallel to the rows and is kept for the specification. */
  datatype Race = Race(db: Db, flights: map<nat, Flight>, makers: seq<Option<Maker>>, checks: nat)

  datatype Action =
    | Guard(worker: nat, turn: Turn)
    | Insert(worker: nat)
    | Stop(worker: nat)
    | Other(event: Event)

  function Inserted(s: Race, w: nat): Race
    requires w in s.flights && s.flights[w].done < |s.flights[w].turn.targets|
  {
    var f := s.flights[w];
    var row := PushRow(f.turn.alert, s.db.now, f.turn.targets[f.done]);
    Race(s.db.(rows := s.db.rows + [row], jobs := s.db.jobs + [|s.db.rows|]),
         s.flights[w := f.(done := f.done + 1)], s.makers + [Some(Maker(f.ticket, f.seen))], s.checks)
  }

  function Unmade(n: nat): (r: seq<Option<Maker>>)
    ensures |r| == n && forall i :: 0 <= i < n ==> r[i] == None
  {
    seq(n, i => None)
  }

  /** Anything but a turn: the table may grow by rows that no flight made. */
  ghost function Elsewhere(owner: Owner, s: Race, e: Event): Race {
    var after := Waves.Step(owner, s.db, e);
    s.(db := after, makers := s.makers + Unmade(if |s.db.rows| <= |after.rows| then |after.rows| - |s.db.rows| else 0))
  }

  ghost function Act(owner: Owner, s: Race, a: Action): Race {
    match a
    case Guard(w, t) =>
      if w in s.flights || !ValidTurn(owner, t) || !Pushes(owner, s.db, t) then s
      else s.(flights := s.flights[w := Flight(t, 0, s.checks, |s.db.rows|)], checks := s.checks + 1)
    case Insert(w) =>
      if w in s.flights && s.flights[w].done < |s.flights[w].turn.targets| then Inserted(s, w) else s
    case Stop(w) => s.(flights := s.flights - {w})
    case Other(e) => if e.UserTurn? then s else Elsewhere(owner, s, e)
  }

  ghost function Acts(owner: Owner, s: Race, actions: seq<Action>): Race
    decreases |actions|
  {
    if actions == [] then s else Acts(owner, Act(owner, s, actions[0]), actions[1..])
  }

  function Start(now: int): Race {
    Race(Waves.Init(now), map[], [], 0)
  }

  // --- the invariant -----------------------------------------------------------------

  ghost predicate NoneFailed(rows: seq<Row>, owner: Owner, alert: int, user: int) {
    forall i :: 0 <= i < |rows| && IsPush(rows[i], owner, alert, user) ==> rows[i].status != Failed
  }

  /** No push row of the user and alert stood before position `n`. */
  ghost predicate NoPushBefore(rows: seq<Row>, owner: Owner, alert: int, user: int, n: nat) {
    forall i :: 0 <= i < n && i < |rows| ==> !IsPush(rows[i], owner, alert, user)
  }

  ghost predicate For(f: Flight, alert: int, user: int) {
    f.turn.alert == alert && f.turn.user == user
  }

  ghost predicate FlightOk(owner: Owner, s: Race, f: Flight, alert: int, user: int) {
    && ValidTurn(owner, f.turn) && f.done <= |f.turn.targets| && f.ticket < s.checks && f.seen <= |s.db.rows|
    && (For(f, alert, user) ==> NoPushBefore(s.db.rows, owner, alert, user, f.seen))
  }

  /** A wave push was made by a turn that saw no push of the user before it checked. */
  ghost predicate RowMade(owner: Owner, s: Race, j: nat, alert: int, user: int)
    requires j < |s.db.rows| && |s.makers| == |s.db.rows|
  {
    IsWavePush(s.db.rows[j], owner, alert, user) ==>
      && s.makers[j].Some? && s.makers[j].value.ticket < s.checks && s.makers[j].value.seen <= j
      && NoPushBefore(s.db.rows, owner, alert, user, s.makers[j].value.seen)
  }

  /** One turn inserts each of its devices once, in order. */
  ghost predicate MadeSoFar(owner: Owner, s: Race, j: nat, f: Flight, alert: int, user: int)
    requires j < |s.db.rows| && |s.makers| == |s.db.rows| && f.done <= |f.turn.targets|
  {
    (IsWavePush(s.db.rows[j], owner, alert, user) && s.makers[j].Some? && s.makers[j].value.ticket == f.ticket)
    ==> s.db.rows[j].device in f.turn.targets[..f.done]
  }

  ghost predicate SameTurnDiffers(owner: Owner, s: Race, i: nat, j: nat, alert: int, user: int)
    requires i < j < |s.db.rows| && |s.makers| == |s.db.rows|
  {
    (&& IsWavePush(s.db.rows[i], owner, alert, user) && IsWavePush(s.db.rows[j], owner, alert, user)
     && s.makers[i].Some? && s.makers[j].Some? && s.makers[i].value.ticket == s.makers[j].value.ticket)
    ==> s.db.rows[i].device != s.db.rows[j].device
  }

  ghost predicate RowsInv(owner: Owner, s: Race, alert: int, user: int) {
    && |s.makers| == |s.db.rows| && NoneFailed(s.db.rows, owner, alert, user)
    && (forall j :: 0 <= j < |s.db.rows| ==> RowMade(owner, s, j, alert, user))
    && (forall i, j :: 0 <= i < j < |s.db.rows| ==> SameTurnDiffers(owner, s, i, j, alert, user))
  }

  ghost predicate FlightsInv(owner: Owner, s: Race, alert: int, user: int) {
    && |s.makers| == |s.db.rows|
    && (forall w :: w in s.flights ==> FlightOk(owner, s, s.flights[w], alert, user))
    && (forall v, w :: v in s.flights && w in s.flights && v != w ==> s.flights[v].ticket != s.flights[w].ticket)
    && (forall w, j :: w in s.flights && 0 <= j < |s.db.rows| ==> MadeSoFar(owner, s, j, s.flights[w], alert, user))
  }

  ghost predicate Inv(owner: Owner, s: Race, alert: int, user: int) {
    RowsInv(owner, s, alert, user) && FlightsInv(owner, s, alert, user)
  }

  // --- preservation --------------------------------------------------------------------

  lemma GuardKeepsInv(owner: Owner, s: Race, w: nat, t: Turn, alert: int, user: int)
    requires Inv(owner, s, alert, user) && w !in s.flights && ValidTurn(owner, t) && Pushes(owner, s.db, t)
    ensures Inv(owner, Act(owner, s, Guard(w, t)), alert, user)
  {
    var after := Act(owner, s, Guard(w, t));
    forall j | 0 <= j < |s.db.rows| ensures RowMade(owner, after, j, alert, user) { assert RowMade(owner, s, j, alert, user); }
    forall i, j | 0 <= i < j < |s.db.rows| ensures SameTurnDiffers(owner, after, i, j, alert, user) {
      assert SameTurnDiffers(owner, s, i, j, alert, user);
    }
    forall v | v in after.flights ensures FlightOk(owner, after, after.flights[v], alert, user) {
      if v != w { assert FlightOk(owner, s, s.flights[v], alert, user); }
      else if t.alert == alert && t.user == user { GuardSawNone(owner, s, t); }
    }
    forall v, j | v in after.flights && 0 <= j < |s.db.rows| ensures MadeSoFar(owner, after, j, after.flights[v], alert, user) {
      if v != w { assert MadeSoFar(owner, s, j, s.flights[v], alert, user); } else { assert RowMade(owner, s, j, alert, user); }
    }
  }

  /** While no push of the user has failed, a turn passes its guards only if there is none. */
  lemma GuardSawNone(owner: Owner, s: Race, t: Turn)
    requires Pushes(owner, s.db, t) && NoneFailed(s.db.rows, owner, t.alert, t.user)
    ensures NoPushBefore(s.db.rows, owner, t.alert, t.user, |s.db.rows|)
  {
    forall i | 0 <= i < |s.db.rows| ensures !IsPush(s.db.rows[i], owner, t.alert, t.user) {
      assert !Reaches(s.db.rows[i], owner, t.alert, t.user, Push);
    }
  }

  lemma InsertKeepsRows(owner: Owner, s: Race, w: nat, alert: int, user: int)
    requires Inv(owner, s, alert, user) && w in s.flights && s.flights[w].done < |s.flights[w].turn.targets|
    ensures RowsInv(owner, Inserted(s, w), alert, user)
  {
    var after, f, n := Inserted(s, w), s.flights[w], |s.db.rows|;
    assert FlightOk(owner, s, f, alert, user);
    forall j | 0 <= j < |after.db.rows| ensures RowMade(owner, after, j, alert, user) {
      if j < n { assert RowMade(owner, s, j, alert, user); }
    }
    forall i, j | 0 <= i < j < |after.db.rows| ensures SameTurnDiffers(owner, after, i, j, alert, user) {
      if j < n { assert SameTurnDiffers(owner, s, i, j, alert, user); } else { assert MadeSoFar(owner, s, i, f, alert, user); }
    }
  }

  lemma InsertKeepsFlights(owner: Owner, s: Race, w: nat, alert: int, user: int)
    requires Inv(owner, s, alert, user) && w in s.flights && s.flights[w].done < |s.flights[w].turn.targets|
    ensures FlightsInv(owner, Inserted(s, w), alert, user)
  {
    var after, f, n := Inserted(s, w), s.flights[w], |s.db.rows|;
    forall v | v in after.flights ensures FlightOk(owner, after, after.flights[v], alert, user) {
      assert FlightOk(owner, s, s.flights[v], alert, user);
    }
    assert f.turn.targets[..f.done + 1] == f.turn.targets[..f.done] + [f.turn.targets[f.done]];
    forall v, j | v in after.flights && 0 <= j < |after.db.rows| ensures MadeSoFar(owner, after, j, after.flights[v], alert, user) {
      if j < n { assert MadeSoFar(owner, s, j, s.flights[v], alert, user); }
    }
  }

  /** Other steps keep every row's identity and insert no wave push. */
  ghost predicate Harmless(owner: Owner, before: seq<Row>, after: seq<Row>, alert: int, user: int) {
    && |before| <= |after|
    && (forall i :: 0 <= i < |before| ==>
          && (IsPush(after[i], owner, alert, user) <==> IsPush(before[i], owner, alert, user))
          && (IsWavePush(after[i], owner, alert, user) <==> IsWavePush(before[i], owner, alert, user))
          && after[i].device == before[i].device)
    && (forall i :: |before| <= i < |after| ==> !IsWavePush(after[i], owner, alert, user))
  }

  lemma OthersAreHarmless(owner: Owner, db: Db, e: Event, alert: int, user: int)
    requires !e.UserTurn? && !FailsPush(owner, db, e, alert, user) && NoneFailed(db.rows, owner, alert, user)
    ensures Harmless(owner, db.rows, Waves.Step(owner, db, e).rows, alert, user)
    ensures NoneFailed(Waves.Step(owner, db, e).rows, owner, alert, user)
  {
  }

  lemma OtherKeepsRows(owner: Owner, s: Race, e: Event, alert: int, user: int)
    requires Inv(owner, s, alert, user) && !e.UserTurn? && !FailsPush(owner, s.db, e, alert, user)
    ensures RowsInv(owner, Elsewhere(owner, s, e), alert, user)
  {
    var after := Elsewhere(owner, s, e);
    OthersAreHarmless(owner, s.db, e, alert, user);
    forall j | 0 <= j < |after.db.rows| ensures RowMade(owner, after, j, alert, user) {
      if j < |s.db.rows| { assert RowMade(owner, s, j, alert, user) && after.makers[j] == s.makers[j]; }
    }
    forall i, j | 0 <= i < j < |after.db.rows| ensures SameTurnDiffers(owner, after, i, j, alert, user) {
      if j < |s.db.rows| {
        assert SameTurnDiffers(owner, s, i, j, alert, user) && after.makers[i] == s.makers[i] && after.makers[j] == s.makers[j];
      }
    }
  }

  lemma OtherKeepsFlights(owner: Owner, s: Race, e: Event, alert: int, user: int)
    requires Inv(owner, s, alert, user) && !e.UserTurn? && !FailsPush(owner, s.db, e, alert, user)
    ensures FlightsInv(owner, Elsewhere(owner, s, e), alert, user)
  {
    var after := Elsewhere(owner, s, e);
    OthersAreHarmless(owner, s.db, e, alert, user);
    forall v | v in after.flights ensures FlightOk(owner, after, after.flights[v], alert, user) {
      assert FlightOk(owner, s, s.flights[v], alert, user);
    }
    forall v, j | v in after.flights && 0 <= j < |after.db.rows| ensures MadeSoFar(owner, after, j, after.flights[v], alert, user) {
      if j < |s.db.rows| { assert MadeSoFar(owner, s, j, s.flights[v], alert, user) && after.makers[j] == s.makers[j]; }
    }
  }

  lemma StopKeepsInv(owner: Owner, s: Race, w: nat, alert: int, user: int)
    requires Inv(owner, s, alert, user)
    ensures Inv(owner, s.(flights := s.flights - {w}), alert, user)
  {
    var after := s.(flights := s.flights - {w});
    forall j | 0 <= j < |s.db.rows| ensures RowMade(owner, after, j, alert, user) { assert RowMade(owner, s, j, alert, user); }
    forall i, j | 0 <= i < j < |s.db.rows| ensures SameTurnDiffers(owner, after, i, j, alert, user) {
      assert SameTurnDiffers(owner, s, i, j, alert, user);
    }
    forall v | v in after.flights ensures FlightOk(owner, after, after.flights[v], alert, user) {
      assert FlightOk(owner, s, s.flights[v], alert, user);
    }
    forall v, j | v in after.flights && 0 <= j < |s.db.rows| ensures MadeSoFar(owner, after, j, after.flights[v], alert, user) {
      assert MadeSoFar(owner, s, j, s.flights[v], alert, user);
    }
  }

  ghost predicate NothingFails(owner: Owner, s: Race, actions: seq<Action>, alert: int, user: int)
    decreases |actions|
  {
    actions == [] ||
    (!(actions[0].Other? && FailsPush(owner, s.db, actions[0].event, alert, user))
     && NothingFails(owner, Act(owner, s, actions[0]), actions[1..], alert, user))
  }

  lemma ActKeepsInv(owner: Owner, s: Race, a: Action, alert: int, user: int)
    requires Inv(owner, s, alert, user) && !(a.Other? && FailsPush(owner, s.db, a.event, alert, user))
    ensures Inv(owner, Act(owner, s, a), alert, user)
  {
    match a
    case Guard(w, t) =>
      if w !in s.flights && ValidTurn(owner, t) && Pushes(owner, s.db, t) { GuardKeepsInv(owner, s, w, t, alert, user); }
    case Insert(w) =>
      if w in s.flights && s.flights[w].done < |s.flights[w].turn.targets| {
        InsertKeepsRows(owner, s, w, alert, user);
        InsertKeepsFlights(owner, s, w, alert, user);
      }
    case Stop(w) => StopKeepsInv(owner, s, w, alert, user);
    case Other(e) =>
      if !e.UserTurn? {
        OtherKeepsRows(owner, s, e, alert, user);
        OtherKeepsFlights(owner, s, e, alert, user);
      }
  }

  lemma {:induction false} ActsKeepInv(owner: Owner, s: Race, actions: seq<Action>, alert: int, user: int)
    requires Inv(owner, s, alert, user) && NothingFails(owner, s, actions, alert, user)
    ensures Inv(owner, Acts(owner, s, actions), alert, user)
    decreases |actions|
  {
    if actions != [] {
      ActKeepsInv(owner, s, actions[0], alert, user);
      ActsKeepInv(owner, Act(owner, s, actions[0]), actions[1..], alert, user);
    }
  }

  // --- two pushes mean an overlap, and an overlap means two pushes ------------------------------------

  /**
   * Under every interleaving in which no push of the user fails: if a device has two wave
   * pushes, they were inserted by two turns, and the turn of the later one had checked before
   * the earlier one was inserted.
   */
  lemma TwoPushesMeanOverlap(owner: Owner, start: int, actions: seq<Action>, alert: int, user: int, i: nat, j: nat)
    requires NothingFails(owner, Start(start), actions, alert, user)
    requires SameDevicePushed(Acts(owner, Start(start), actions).db.rows, owner, alert, user, i, j)
    ensures var s := Acts(owner, Start(start), actions);
      && |s.makers| == |s.db.rows| && s.makers[i].Some? && s.makers[j].Some?
      && s.makers[i].value.ticket != s.makers[j].value.ticket && s.makers[j].value.seen <= i
  {
    ActsKeepInv(owner, Start(start), actions, alert, user);
    var s := Acts(owner, Start(start), actions);
    assert RowMade(owner, s, i, alert, user) && RowMade(owner, s, j, alert, user);
    assert SameTurnDiffers(owner, s, i, j, alert, user);
  }

  lemma {:induction false} ActsConcat(owner: Owner, s: Race, a: seq<Action>, b: seq<Action>)
    ensures Acts(owner, s, a + b) == Acts(owner, Acts(owner, s, a), b)
    decreases |a|
  {
    if a == [] {
      assert a + b == b;
    } else {
      assert (a + b)[1..] == a[1..] + b;
      ActsConcat(owner, Act(owner, s, a[0]), a[1..], b);
    }
  }

  function Inserts(w: nat, n: nat): seq<Action> {
    if n == 0 then [] else Inserts(w, n - 1) + [Insert(w)]
  }

  /** The rows a flight has still to insert, up to `n` of them. */
  function NextRows(f: Flight, now: int, n: nat): (r: seq<Row>)
    requires f.done + n <= |f.turn.targets|
    ensures |r| == n && forall i :: 0 <= i < n ==> r[i] == PushRow(f.turn.alert, now, f.turn.targets[f.done + i])
  {
    seq(n, i requires 0 <= i < n => PushRow(f.turn.alert, now, f.turn.targets[f.done + i]))
  }

  /** Letting a flight go on appends a push row for each of its next devices. */
  lemma {:induction false} InsertsAppend(owner: Owner, s: Race, w: nat, n: nat)
    requires w in s.flights && s.flights[w].done + n <= |s.flights[w].turn.targets|
    ensures var after, f := Acts(owner, s, Inserts(w, n)), s.flights[w];
      && after.flights == s.flights[w := f.(done := f.done + n)] && after.db.now == s.db.now && after.db.mails == s.db.mails
      && after.db.rows == s.db.rows + NextRows(f, s.db.now, n) && after.db.jobs == s.db.jobs + Ids(|s.db.rows|, n)
    decreases n
  {
    if n == 0 {
      assert s.flights[w := s.flights[w]] == s.flights;
    } else {
      var f := s.flights[w];
      InsertsAppend(owner, s, w, n - 1);
      var mid := Acts(owner, s, Inserts(w, n - 1));
      ActsConcat(owner, s, Inserts(w, n - 1), [Insert(w)]);
      assert [Insert(w)][1..] == [];
      assert Acts(owner, mid, [Insert(w)]) == Acts(owner, Act(owner, mid, Insert(w)), []);
      assert NextRows(f, s.db.now, n) == NextRows(f, s.db.now, n - 1) + [PushRow(f.turn.alert, s.db.now, f.turn.targets[f.done + n - 1])];
      assert Ids(|s.db.rows|, n) == Ids(|s.db.rows|, n - 1) + [|s.db.rows| + n - 1];
    }
  }

  /** Without anything in between, guards and insertions make exactly the turn of `Waves`, cut short where they stop. */
  lemma LoneFlightIsTheTurn(owner: Owner, s: Race, w: nat, t: Turn, n: nat)
    requires w !in s.flights && ValidTurn(owner, t) && Pushes(owner, s.db, t) && n <= |t.targets|
    ensures var after := Acts(owner, s, [Guard(w, t)] + Inserts(w, n)).db;
      var turn := Waves.Step(owner, s.db, UserTurn(t, n, true));
      after.rows == turn.rows && after.jobs == turn.jobs && after.now == turn.now && after.mails == turn.mails
  {
    var guarded := Act(owner, s, Guard(w, t));
    InsertsAppend(owner, guarded, w, n);
    assert ([Guard(w, t)] + Inserts(w, n))[1..] == Inserts(w, n);
    assert NextRows(guarded.flights[w], s.db.now, n) == TurnRows(owner, s.db, t, n);
    assert s.db.jobs + Ids(|s.db.rows|, 0) == s.db.jobs;
  }

  /** Two rows are wave pushes for the alert to one device of the user. */
  ghost predicate SameDevicePushed(rows: seq<Row>, owner: Owner, alert: int, user: int, i: nat, j: nat) {
    && i < j < |rows| && rows[i].device == rows[j].device
    && IsWavePush(rows[i], owner, alert, user) && IsWavePush(rows[j], owner, alert, user)
  }

  ghost predicate PushedTwice(rows: seq<Row>, owner: Owner, alert: int, user: int) {
    exists i, j :: SameDevicePushed(rows, owner, alert, user, i, j)
  }

  lemma BothAppended(s: Race, f: Flight, g: Flight, owner: Owner, m: nat, n: nat, alert: int, user: int)
    requires For(f, alert, user) && For(g, alert, user) && m > 0 && n > 0
    requires f.done + m <= |f.turn.targets| && g.done + n <= |g.turn.targets|
    requires f.turn.targets[f.done + m - 1] == g.turn.targets[g.done + n - 1] && owner(f.turn.targets[f.done + m - 1]) == user
    ensures PushedTwice(s.db.rows + NextRows(f, s.db.now, m) + NextRows(g, s.db.now, n), owner, alert, user)
  {
    var a, b := NextRows(f, s.db.now, m), NextRows(g, s.db.now, n);
    var rows := s.db.rows + a + b;
    var i, j := |s.db.rows| + m - 1, |s.db.rows| + m + n - 1;
    assert rows[i] == a[m - 1] && rows[j] == b[n - 1];
    assert SameDevicePushed(rows, owner, alert, user, i, j);
  }

  /** Two turns of a user in flight with a device still ahead of both: going on, they push to it twice. */
  lemma OverlapPushesTwice(owner: Owner, s: Race, v: nat, w: nat, p: nat, q: nat, alert: int, user: int)
    requires v != w && v in s.flights && w in s.flights && For(s.flights[v], alert, user) && For(s.flights[w], alert, user)
    requires s.flights[v].done <= p < |s.flights[v].turn.targets| && s.flights[w].done <= q < |s.flights[w].turn.targets|
    requires s.flights[v].turn.targets[p] == s.flights[w].turn.targets[q] && owner(s.flights[v].turn.targets[p]) == user
    ensures var actions := Inserts(v, p - s.flights[v].done + 1) + Inserts(w, q - s.flights[w].done + 1);
      PushedTwice(Acts(owner, s, actions).db.rows, owner, alert, user)
  {
    var f, g := s.flights[v], s.flights[w];
    var m, n := p - f.done + 1, q - g.done + 1;
    var mid := Acts(owner, s, Inserts(v, m));
    InsertsAppend(owner, s, v, m);
    InsertsAppend(owner, mid, w, n);
    ActsConcat(owner, s, Inserts(v, m), Inserts(w, n));
    BothAppended(s, f, g, owner, m, n, alert, user);
  }

  /** From an empty table: two jobs check one user before either inserts, and the device is pushed to twice. */
  lemma RaceHappens(start: int)
    ensures var owner: Owner := (device: int) => 7;
      var t := Turn(1, High, false, 7, 11, true, [11]);
      SameDevicePushed(Acts(owner, Start(start), [Guard(0, t), Guard(1, t), Insert(0), Insert(1)]).db.rows, owner, 1, 7, 0, 1)
  {
    var owner: Owner := (device: int) => 7;
    var t := Turn(1, High, false, 7, 11, true, [11]);
    var actions := [Guard(0, t), Guard(1, t), Insert(0), Insert(1)];
    assert Pushes(owner, Waves.Init(start), t);
    var s1 := Act(owner, Start(start), Guard(0, t));
    var s2 := Act(owner, s1, Guard(1, t));
    assert s2.flights == map[0 := Flight(t, 0, 0, 0), 1 := Flight(t, 0, 1, 0)];
    assert actions[1..] == [Guard(1, t), Insert(0), Insert(1)] && actions[1..][1..] == [Insert(0), Insert(1)];
    assert Acts(owner, Start(start), actions) == Acts(owner, s1, actions[1..]) == Acts(owner, s2, [Insert(0), Insert(1)]);
    var s3 := Act(owner, s2, Insert(0));
    var s4 := Act(owner, s3, Insert(1));
    assert [Insert(0), Insert(1)][1..] == [Insert(1)] && [Insert(1)][1..] == [];
    assert Acts(owner, s3, [Insert(1)]) == Acts(owner, s4, []) == s4;
  }
}
