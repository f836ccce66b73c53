/**
 * How far the lazy expiry sweep is visible. A sweep never decides whether a
 * link validates or converts, but a stale PENDING row still blocks its own
 * address, so it can decide what the sender's operations answer. `SweepMatters`
 * is the exact condition.
 */
module InvitationSweeps {
  import opened Common
  import opened InvitationTokens
  import opened Invitations

  /** `after` is `db` with some of its stale PENDING rows swept. */
  ghost predicate Ahead(db: Db, after: Db) {
    && after == db.(rows := after.rows) && |after.rows| == |db.rows|
    && forall i :: 0 <= i < |db.rows| ==>
         after.rows[i] == db.rows[i] || (Stale(db.rows[i], db.now) && after.rows[i] == db.rows[i].(status := Expired))
  }

  predicate StaleElsewhere(db: Db, sender: int, email: string, except: int) {
    exists i :: 0 <= i < |db.rows| && i != except && Stale(db.rows[i], db.now)
                && db.rows[i].sender == sender && db.rows[i].email == email
  }

  /** The next event reaches the point where it looks at a row that is PENDING only because nobody swept it. */
  predicate SweepMatters(cfg: Config, db: Db, e: Event) {
    match e
    case Create(sender, email, fieldsOk, token) =>
      && Fresh(db, token) && cfg.enabled && fieldsOk && email !in db.accounts
      && StaleElsewhere(db, sender, email, -1)
    case Revoke(sender, id) =>
      cfg.enabled && Owned(db, sender, id) && Stale(db.rows[id], db.now)
    case Resend(sender, id, token) =>
      && Fresh(db, token) && ResendRefusal(cfg, db, sender, id).None?
      && StaleElsewhere(db, db.rows[id].sender, db.rows[id].email, id)
    case _ => false
  }

  lemma SameMatches(db: Db, after: Db, e: Event)
    requires Ahead(db, after)
    ensures e.AcceptByToken? ==> TokenMatches(after, e.token) == TokenMatches(db, e.token)
    ensures e.AcceptByEmail? ==> EmailMatches(after, e.email) == EmailMatches(db, e.email)
    ensures e.Preview? ==> (PreviewOk(after, e.token) <==> PreviewOk(db, e.token))
  {
    forall i | 0 <= i < |db.rows| ensures Live(after.rows[i], after.now) <==> Live(db.rows[i], db.now) {}
    if e.Preview? && PreviewOk(db, e.token) {
      var i :| 0 <= i < |db.rows| && db.rows[i].hash == Sha256(e.token) && Live(db.rows[i], db.now);
      assert after.rows[i] == db.rows[i];
    }
  }

  /** Whether an address is taken differs only through a stale row. */
  lemma PendingDiffersByStale(db: Db, after: Db, sender: int, email: string)
    requires Ahead(db, after)
    ensures HasPending(after.rows, sender, email) ==> HasPending(db.rows, sender, email)
    ensures HasPending(db.rows, sender, email) && !StaleElsewhere(db, sender, email, -1)
        ==> HasPending(after.rows, sender, email)
  {
    if HasPending(after.rows, sender, email) {
      var i :| 0 <= i < |after.rows| && PendingFor(after.rows[i], sender, email);
      assert PendingFor(db.rows[i], sender, email);
    }
    if HasPending(db.rows, sender, email) && !StaleElsewhere(db, sender, email, -1) {
      var i :| 0 <= i < |db.rows| && PendingFor(db.rows[i], sender, email);
      assert PendingFor(after.rows[i], sender, email);
    }
  }

  lemma BlockingDiffersByStale(db: Db, after: Db, id: nat)
    requires Ahead(db, after) && id < |db.rows|
    ensures IndexBlocks(after.rows, id) ==> IndexBlocks(db.rows, id)
    ensures IndexBlocks(db.rows, id) && !StaleElsewhere(db, db.rows[id].sender, db.rows[id].email, id)
        ==> IndexBlocks(after.rows, id)
  {
    var sender, email := db.rows[id].sender, db.rows[id].email;
    if IndexBlocks(after.rows, id) {
      var i :| 0 <= i < |after.rows| && i != id && PendingFor(after.rows[i], sender, email);
      assert PendingFor(db.rows[i], sender, email);
    }
    if IndexBlocks(db.rows, id) && !StaleElsewhere(db, sender, email, id) {
      var i :| 0 <= i < |db.rows| && i != id && PendingFor(db.rows[i], sender, email);
      assert PendingFor(after.rows[i], sender, email);
    }
  }

  lemma SameRefusal(cfg: Config, db: Db, after: Db, sender: int, id: int)
    requires Ahead(db, after)
    ensures ResendRefusal(cfg, after, sender, id) == ResendRefusal(cfg, db, sender, id)
  {
  }

  /** Sender operations that no stale row concerns agree in both states. */
  lemma SenderStepAgrees(cfg: Config, db: Db, after: Db, e: Event)
    requires Ahead(db, after) && !SweepMatters(cfg, db, e) && (e.Create? || e.Revoke? || e.Resend?)
    ensures Step(cfg, after, e).reply == Step(cfg, db, e).reply
    ensures Ahead(Step(cfg, db, e).db, Step(cfg, after, e).db)
  {
    match e
    case Create(sender, email, _, _) => PendingDiffersByStale(db, after, sender, email);
    case Revoke(_, _) =>
    case Resend(sender, id, token) =>
      SameRefusal(cfg, db, after, sender, id);
      if Fresh(db, token) && ResendRefusal(cfg, db, sender, id).None? {
        BlockingDiffersByStale(db, after, id);
        assert Reissued(cfg, after.rows[id], db.now, token) == Reissued(cfg, db.rows[id], db.now, token);
      }
  }

  lemma OtherStepAgrees(cfg: Config, db: Db, after: Db, e: Event)
    requires Ahead(db, after) && !e.Create? && !e.Revoke? && !e.Resend? && !e.SweepExpired?
    ensures Step(cfg, after, e).reply == Step(cfg, db, e).reply
    ensures Ahead(Step(cfg, db, e).db, Step(cfg, after, e).db)
  {
    SameMatches(db, after, e);
  }

  predicate Sweeping(e: Event) { e.SweepExpired? }

  function WithoutSweeps(events: seq<Event>): seq<Event> {
    if events == [] then []
    else if Sweeping(events[0]) then WithoutSweeps(events[1..])
    else [events[0]] + WithoutSweeps(events[1..])
  }

  /** Every reply of a run except those of its sweeps. */
  function Replies(cfg: Config, db: Db, events: seq<Event>): seq<Reply>
    decreases |events|
  {
    if events == [] then []
    else
      var r := Step(cfg, db, events[0]);
      (if Sweeping(events[0]) then [] else [r.reply]) + Replies(cfg, r.db, events[1..])
  }

  /** No event of a sweep-free run meets an unswept stale row. */
  predicate NeverMatters(cfg: Config, db: Db, events: seq<Event>)
    decreases |events|
  {
    events == [] || (!SweepMatters(cfg, db, events[0]) && NeverMatters(cfg, Step(cfg, db, events[0]).db, events[1..]))
  }

  lemma {:induction false} RepliesIgnoreSweeps(cfg: Config, db: Db, after: Db, events: seq<Event>)
    requires Ahead(db, after) && NeverMatters(cfg, db, WithoutSweeps(events))
    ensures Replies(cfg, after, events) == Replies(cfg, db, WithoutSweeps(events))
    decreases |events|
  {
    if events != [] {
      var e := events[0];
      if Sweeping(e) {
        RepliesIgnoreSweeps(cfg, db, Step(cfg, after, e).db, events[1..]);
      } else {
        var rest := WithoutSweeps(events[1..]);
        assert WithoutSweeps(events)[1..] == rest;
        if e.Create? || e.Revoke? || e.Resend? {
          SenderStepAgrees(cfg, db, after, e);
        } else {
          OtherStepAgrees(cfg, db, after, e);
        }
        RepliesIgnoreSweeps(cfg, Step(cfg, db, e).db, Step(cfg, after, e).db, events[1..]);
      }
    }
  }

  /** While no operation meets a stale row, adding, removing or moving sweeps changes no answer of any kind. */
  lemma SweepsAreInvisible(cfg: Config, db: Db, events: seq<Event>, other: seq<Event>)
    requires WithoutSweeps(events) == WithoutSweeps(other) && NeverMatters(cfg, db, WithoutSweeps(events))
    ensures Replies(cfg, db, events) == Replies(cfg, db, other)
  {
    RepliesIgnoreSweeps(cfg, db, db, events);
    RepliesIgnoreSweeps(cfg, db, db, other);
  }

  // ---------------------------------------------------------------------
  // The condition is exact
  // ---------------------------------------------------------------------

  lemma SweepIsAhead(db: Db, scope: Option<int>)
    ensures Ahead(db, Swept(db, scope))
  {
  }

  lemma SweepClearsStale(db: Db, id: int, sender: int, email: string)
    requires OnePending(db.rows) && StaleElsewhere(db, sender, email, id)
    ensures forall j :: 0 <= j < |db.rows| ==> !PendingFor(Swept(db, None).rows[j], sender, email)
  {
    var i :| 0 <= i < |db.rows| && i != id && Stale(db.rows[i], db.now)
             && db.rows[i].sender == sender && db.rows[i].email == email;
  }

  lemma SweepChangesCreate(cfg: Config, db: Db, e: Event)
    requires OnePending(db.rows) && e.Create? && SweepMatters(cfg, db, e)
    ensures Step(cfg, Swept(db, None), e).reply != Step(cfg, db, e).reply
  {
    SweepClearsStale(db, -1, e.sender, e.email);
    assert HasPending(db.rows, e.sender, e.email);
  }

  lemma SweepChangesRevoke(cfg: Config, db: Db, e: Event)
    requires e.Revoke? && SweepMatters(cfg, db, e)
    ensures Step(cfg, Swept(db, None), e).reply != Step(cfg, db, e).reply
  {
  }

  lemma SweepChangesResend(cfg: Config, db: Db, e: Event)
    requires OnePending(db.rows) && e.Resend? && SweepMatters(cfg, db, e)
    ensures Step(cfg, Swept(db, None), e).reply != Step(cfg, db, e).reply
  {
    SweepIsAhead(db, None);
    SweepClearsStale(db, e.id, db.rows[e.id].sender, db.rows[e.id].email);
    SameRefusal(cfg, db, Swept(db, None), e.sender, e.id);
    assert IndexBlocks(db.rows, e.id);
  }

  /** In a reachable state a full sweep just before an event changes its answer if and only if `SweepMatters`. */
  lemma SweepVisibleExactly(cfg: Config, db: Db, e: Event)
    requires Inv(cfg, db)
    ensures Step(cfg, Swept(db, None), e).reply != Step(cfg, db, e).reply <==> SweepMatters(cfg, db, e)
  {
    SweepIsAhead(db, None);
    if SweepMatters(cfg, db, e) {
      match e
      case Create(_, _, _, _) => SweepChangesCreate(cfg, db, e);
      case Revoke(_, _) => SweepChangesRevoke(cfg, db, e);
      case Resend(_, _, _) => SweepChangesResend(cfg, db, e);
    } else if e.Create? || e.Revoke? || e.Resend? {
      SenderStepAgrees(cfg, db, Swept(db, None), e);
    } else if !e.SweepExpired? {
      OtherStepAgrees(cfg, db, Swept(db, None), e);
    }
  }

  /** The run with one full sweep before the first event that meets a stale row. */
  function SweptInTime(cfg: Config, db: Db, events: seq<Event>): seq<Event>
    decreases |events|
  {
    if events == [] then []
    else if SweepMatters(cfg, db, events[0]) then [SweepExpired(None)] + events
    else [events[0]] + SweptInTime(cfg, Step(cfg, db, events[0]).db, events[1..])
  }

  predicate SweepFree(events: seq<Event>) {
    forall i :: 0 <= i < |events| ==> !Sweeping(events[i])
  }

  lemma {:induction false} SweepFreeIsFixed(events: seq<Event>)
    requires SweepFree(events)
    ensures WithoutSweeps(events) == events
  {
    if events != [] { SweepFreeIsFixed(events[1..]); }
  }

  lemma {:induction false} WithoutSweepsIsFree(events: seq<Event>)
    ensures SweepFree(WithoutSweeps(events))
  {
    if events != [] { WithoutSweepsIsFree(events[1..]); }
  }

  lemma {:induction false} SweptInTimeAddsSweeps(cfg: Config, db: Db, events: seq<Event>)
    requires SweepFree(events)
    ensures WithoutSweeps(SweptInTime(cfg, db, events)) == events
    decreases |events|
  {
    if events != [] {
      if SweepMatters(cfg, db, events[0]) {
        assert ([SweepExpired(None)] + events)[1..] == events;
        SweepFreeIsFixed(events);
      } else {
        var rest := SweptInTime(cfg, Step(cfg, db, events[0]).db, events[1..]);
        assert ([events[0]] + rest)[1..] == rest;
        SweptInTimeAddsSweeps(cfg, Step(cfg, db, events[0]).db, events[1..]);
      }
    }
  }

  lemma FirstReply(cfg: Config, db: Db, events: seq<Event>)
    requires events != []
    ensures Sweeping(events[0]) ==> Replies(cfg, db, events) == Replies(cfg, Step(cfg, db, events[0]).db, events[1..])
    ensures !Sweeping(events[0]) ==>
      Replies(cfg, db, events) == [Step(cfg, db, events[0]).reply] + Replies(cfg, Step(cfg, db, events[0]).db, events[1..])
  {
  }

  /** That sweep is seen. */
  lemma {:induction false} SweptInTimeDiffers(cfg: Config, db: Db, events: seq<Event>)
    requires Inv(cfg, db) && SweepFree(events) && !NeverMatters(cfg, db, events)
    ensures Replies(cfg, db, SweptInTime(cfg, db, events)) != Replies(cfg, db, events)
    decreases |events|
  {
    var e, other := events[0], SweptInTime(cfg, db, events);
    FirstReply(cfg, db, events);
    FirstReply(cfg, db, other);
    if SweepMatters(cfg, db, e) {
      assert other[1..] == events;
      FirstReply(cfg, Swept(db, None), events);
      SweepVisibleExactly(cfg, db, e);
      assert Replies(cfg, db, other)[0] != Replies(cfg, db, events)[0];
    } else {
      var next := Step(cfg, db, e).db;
      assert other[1..] == SweptInTime(cfg, next, events[1..]);
      StepKeepsInv(cfg, db, e);
      SweptInTimeDiffers(cfg, next, events[1..]);
      assert Replies(cfg, db, other)[1..] != Replies(cfg, db, events)[1..];
    }
  }

  /** Sweeps can be added, removed and moved freely in a run if and only if none of its operations meets a stale row. */
  lemma SweepsInvisibleExactly(cfg: Config, db: Db, events: seq<Event>)
    requires Inv(cfg, db)
    ensures NeverMatters(cfg, db, WithoutSweeps(events)) <==>
      forall other :: WithoutSweeps(other) == WithoutSweeps(events) ==>
        Replies(cfg, db, other) == Replies(cfg, db, WithoutSweeps(events))
  {
    var plain := WithoutSweeps(events);
    WithoutSweepsIsFree(events);
    SweepFreeIsFixed(plain);
    if NeverMatters(cfg, db, plain) {
      forall other | WithoutSweeps(other) == plain ensures Replies(cfg, db, other) == Replies(cfg, db, plain) {
        SweepsAreInvisible(cfg, db, other, plain);
      }
    } else {
      SweptInTimeAddsSweeps(cfg, db, plain);
      SweptInTimeDiffers(cfg, db, plain);
    }
  }

  function Token(c: char): (token: string)
    ensures IsTokenChar(c) ==> IsMintedShape(token)
  {
    seq(MINTED_LENGTH, i => c)
  }

  lemma {:induction false} RunExtends(cfg: Config, db: Db, events: seq<Event>, e: Event)
    ensures Run(cfg, db, events + [e]) == Step(cfg, Run(cfg, db, events), e).db
    decreases |events|
  {
    if events == [] {
      assert Run(cfg, Step(cfg, db, e).db, []) == Step(cfg, db, e).db;
      assert (events + [e])[1..] == [];
    } else {
      assert (events + [e])[1..] == events[1..] + [e];
      RunExtends(cfg, Step(cfg, db, events[0]).db, events[1..], e);
    }
  }

  const ONE_A_DAY := Config(true, DAY_MS, 1, 0, 0)

  /** One invitation, a day and a millisecond old, that nobody has swept. */
  ghost function Unswept(): Db {
    Record(Init(0).(rows := [NewRow(ONE_A_DAY, 0, 1, "a@b", Token('a'))]), 0, 1, Token('a')).(now := DAY_MS + 1)
  }

  lemma UnsweptIsReached()
    ensures Run(ONE_A_DAY, Init(0), [Create(1, "a@b", true, Token('a')), Wait(DAY_MS + 1)]) == Unswept()
  {
    var first := Create(1, "a@b", true, Token('a'));
    RunExtends(ONE_A_DAY, Init(0), [], first);
    RunExtends(ONE_A_DAY, Init(0), [first], Wait(DAY_MS + 1));
    assert [] + [first] == [first];
    assert [first] + [Wait(DAY_MS + 1)] == [first, Wait(DAY_MS + 1)];
  }

  lemma UnsweptRowBlocks()
    ensures Step(ONE_A_DAY, Unswept(), Create(1, "a@b", true, Token('b'))).reply == InvitePending
  {
    var db := Unswept();
    assert Token('a')[0] != Token('b')[0];
    assert PendingFor(db.rows[0], 1, "a@b");
  }

  lemma SweptRowIsReplaced()
    ensures Step(ONE_A_DAY, Swept(Unswept(), None), Create(1, "a@b", true, Token('b'))).reply == Issued(1)
  {
    var db := Unswept();
    assert Token('a')[0] != Token('b')[0];
    assert db.log[..0] == [];
    assert CountSince(db.log, Some(1), db.now - DAY_MS) == 0;
    var after := Swept(db, None);
    assert SendLimit(ONE_A_DAY, after, 1) == None;
    assert !HasPending(after.rows, 1, "a@b");
  }

  /** A run in which one sweep decides whether the second invitation to an address is issued. */
  lemma SweepCanDecideCreate()
    ensures var before := [Create(1, "a@b", true, Token('a')), Wait(DAY_MS + 1)];
            var again := Create(1, "a@b", true, Token('b'));
      && Step(ONE_A_DAY, Run(ONE_A_DAY, Init(0), before), again).reply == InvitePending
      && Step(ONE_A_DAY, Run(ONE_A_DAY, Init(0), before + [SweepExpired(None)]), again).reply == Issued(1)
  {
    var before := [Create(1, "a@b", true, Token('a')), Wait(DAY_MS + 1)];
    assert Run(ONE_A_DAY, Init(0), before) == Unswept() by { UnsweptIsReached(); }
    assert Run(ONE_A_DAY, Init(0), before + [SweepExpired(None)]) == Swept(Unswept(), None) by {
      RunExtends(ONE_A_DAY, Init(0), before, SweepExpired(None));
    }
    UnsweptRowBlocks();
    SweptRowIsReplaced();
  }
}
