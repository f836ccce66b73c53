/**
 * The cache of active alert zones (src/user/alert-zone-cache.service.ts) with its
 * writers (src/user/alert-zone.service.ts). A read is a get, a query and a set; a
 * write is a change of the table and an invalidation that may fail unnoticed, or
 * never come. All of these interleave freely.
 */
module ZoneCache {
  import opened Common

  const TTL_MS := 300_000

  datatype Zone = Zone(id: nat, user: int, radius: int, priority: int, isActive: bool, name: string)

  /** The answer to the query for active zones, from the instant `at` on. */
  datatype Version = Version(zones: seq<Zone>, at: int)

  /** A cached answer, by version; the instants are kept for the specification. */
  datatype Entry = Entry(version: nat, fetchedAt: int, storedAt: int)

  /** Reads in progress. Tickets number the reads in the order of their gets. */
  datatype Reader =
    | Missed(ticket: nat)
    | Fetched(ticket: nat, version: nat, fetchedAt: int)
    | FallingBack(ticket: nat)

  /** A finished read: which answer it gave, when that was queried and stored, and when the read got it. */
  datatype Returned = Returned(ticket: nat, version: nat, fetchedAt: int, storedAt: int, at: int)

  datatype Db = Db(
    now: int, history: seq<Version>, cache: Option<Entry>, readers: map<nat, Reader>, gets: nat, returned: seq<Returned>)

  datatype Event =
    | Get(reader: nat, failed: bool)
    | Fetch(reader: nat, failed: bool)
    | Store(reader: nat, stored: bool, acknowledged: bool)
    | Write(zones: seq<Zone>)
    | Invalidate(applied: bool)
    | Wait(ms: nat)

  predicate Live(entry: Option<Entry>, now: int) {
    entry.Some? && now <= entry.value.storedAt + TTL_MS
  }

  function Answered(db: Db, reader: nat, r: Returned): Db {
    db.(readers := db.readers - {reader}, returned := db.returned + [r])
  }

  function ApplyGet(db: Db, reader: nat, failed: bool): Db {
    var started := db.(gets := db.gets + 1);
    if failed then started.(readers := db.readers[reader := FallingBack(db.gets)])
    else if Live(db.cache, db.now) then
      var e := db.cache.value;
      Answered(started, reader, Returned(db.gets, e.version, e.fetchedAt, e.storedAt, db.now))
    else started.(readers := db.readers[reader := Missed(db.gets)])
  }

  /** An error in the first query leads to a second one, whose error is the caller's. */
  function ApplyFetch(db: Db, reader: nat, failed: bool): Db
    requires reader in db.readers && db.history != []
  {
    var p := db.readers[reader];
    var latest := |db.history| - 1;
    match p
    case Missed(ticket) =>
      db.(readers := db.readers[reader := if failed then FallingBack(ticket) else Fetched(ticket, latest, db.now)])
    case FallingBack(ticket) =>
      if failed then db.(readers := db.readers - {reader})
      else Answered(db, reader, Returned(ticket, latest, db.now, db.now, db.now))
    case Fetched(_, _, _) => db
  }

  /** A set may take effect whether or not it is acknowledged; without acknowledgement the read falls back. */
  function ApplyStore(db: Db, reader: nat, stored: bool, acknowledged: bool): Db
    requires reader in db.readers && db.readers[reader].Fetched?
  {
    var p := db.readers[reader];
    var after := if stored then db.(cache := Some(Entry(p.version, p.fetchedAt, db.now))) else db;
    if acknowledged then Answered(after, reader, Returned(p.ticket, p.version, p.fetchedAt, db.now, db.now))
    else after.(readers := db.readers[reader := FallingBack(p.ticket)])
  }

  function Step(db: Db, e: Event): Db
    requires db.history != []
  {
    match e
    case Get(r, failed) => if r in db.readers then db else ApplyGet(db, r, failed)
    case Fetch(r, failed) => if r in db.readers then ApplyFetch(db, r, failed) else db
    case Store(r, stored, acknowledged) =>
      if r in db.readers && db.readers[r].Fetched? && (acknowledged ==> stored) then ApplyStore(db, r, stored, acknowledged) else db
    case Write(zones) => db.(history := db.history + [Version(zones, db.now)])
    case Invalidate(applied) => if applied then db.(cache := None) else db
    case Wait(ms) => db.(now := db.now + ms)
  }

  lemma HistoryGrows(db: Db, e: Event)
    requires db.history != []
    ensures Step(db, e).history != [] && db.history <= Step(db, e).history
  {
  }

  function Run(db: Db, events: seq<Event>): (r: Db)
    requires db.history != []
    ensures r.history != []
    decreases |events|
  {
    if events == [] then db else Run(Step(db, events[0]), events[1..])
  }

  function Init(now: int, zones: seq<Zone>): Db {
    Db(now, [Version(zones, now)], None, map[], 0, [])
  }

  // --- every answer was current ----------------------------------------------------------

  ghost predicate CurrentAt(history: seq<Version>, v: nat, t: int) {
    v < |history| && history[v].at <= t && (v + 1 < |history| ==> t <= history[v + 1].at)
  }

  ghost predicate HistoryOk(db: Db) {
    && |db.history| > 0
    && (forall i, j :: 0 <= i < j < |db.history| ==> db.history[i].at <= db.history[j].at)
    && db.history[|db.history| - 1].at <= db.now
  }

  ghost predicate ReturnedOk(db: Db, r: Returned) {
    && CurrentAt(db.history, r.version, r.fetchedAt)
    && r.fetchedAt <= r.storedAt <= r.at <= db.now && r.at <= r.storedAt + TTL_MS
  }

  ghost predicate ReaderOk(db: Db, p: Reader) {
    && p.ticket < db.gets
    && (p.Fetched? ==> CurrentAt(db.history, p.version, p.fetchedAt) && p.fetchedAt <= db.now)
  }

  ghost predicate EntryOk(db: Db, e: Entry) {
    CurrentAt(db.history, e.version, e.fetchedAt) && e.fetchedAt <= e.storedAt <= db.now
  }

  ghost predicate Inv(db: Db) {
    && HistoryOk(db)
    && (db.cache.Some? ==> EntryOk(db, db.cache.value))
    && (forall r :: r in db.readers ==> ReaderOk(db, db.readers[r]))
    && (forall i :: 0 <= i < |db.returned| ==> ReturnedOk(db, db.returned[i]))
  }

  lemma WriteKeepsInv(db: Db, zones: seq<Zone>)
    requires Inv(db)
    ensures Inv(Step(db, Write(zones)))
  {
    var after := Step(db, Write(zones));
    forall v: nat, t | CurrentAt(db.history, v, t) && t <= db.now ensures CurrentAt(after.history, v, t) {
      assert after.history[v] == db.history[v];
    }
    forall i | 0 <= i < |after.returned| ensures ReturnedOk(after, after.returned[i]) {
      assert ReturnedOk(db, db.returned[i]);
    }
  }

  lemma GetKeepsInv(db: Db, reader: nat, failed: bool)
    requires Inv(db) && reader !in db.readers
    ensures Inv(ApplyGet(db, reader, failed))
  {
    var after := ApplyGet(db, reader, failed);
    forall i | 0 <= i < |after.returned| ensures ReturnedOk(after, after.returned[i]) {
      if i < |db.returned| { assert ReturnedOk(db, db.returned[i]); }
    }
  }

  lemma FetchKeepsInv(db: Db, reader: nat, failed: bool)
    requires Inv(db) && reader in db.readers
    ensures Inv(ApplyFetch(db, reader, failed))
  {
    var after := ApplyFetch(db, reader, failed);
    assert ReaderOk(db, db.readers[reader]);
    forall i | 0 <= i < |after.returned| ensures ReturnedOk(after, after.returned[i]) {
      if i < |db.returned| { assert ReturnedOk(db, db.returned[i]); }
    }
  }

  lemma StoreKeepsInv(db: Db, reader: nat, stored: bool, acknowledged: bool)
    requires Inv(db) && reader in db.readers && db.readers[reader].Fetched?
    ensures Inv(ApplyStore(db, reader, stored, acknowledged))
  {
    var after := ApplyStore(db, reader, stored, acknowledged);
    assert ReaderOk(db, db.readers[reader]);
    forall i | 0 <= i < |after.returned| ensures ReturnedOk(after, after.returned[i]) {
      if i < |db.returned| { assert ReturnedOk(db, db.returned[i]); }
    }
  }

  lemma StepKeepsInv(db: Db, e: Event)
    requires Inv(db)
    ensures Inv(Step(db, e))
  {
    match e
    case Get(r, failed) => if r !in db.readers { GetKeepsInv(db, r, failed); }
    case Fetch(r, failed) => if r in db.readers { FetchKeepsInv(db, r, failed); }
    case Store(r, stored, acknowledged) =>
      if r in db.readers && db.readers[r].Fetched? { StoreKeepsInv(db, r, stored, acknowledged); }
    case Write(zones) => WriteKeepsInv(db, zones);
    case Invalidate(_) =>
    case Wait(ms) =>
      forall i | 0 <= i < |db.returned| ensures ReturnedOk(Step(db, e), db.returned[i]) {
        assert ReturnedOk(db, db.returned[i]);
      }
  }

  lemma {:induction false} RunKeepsInv(db: Db, events: seq<Event>)
    requires Inv(db)
    ensures Inv(Run(db, events))
    decreases |events|
  {
    if events != [] {
      StepKeepsInv(db, events[0]);
      RunKeepsInv(Step(db, events[0]), events[1..]);
    }
  }

  /**
   * Every list returned equals the active zones at some instant, no older than the TTL
   * plus the time its own cache entry took from query to set.
   */
  lemma EveryReadWasCurrent(start: int, zones: seq<Zone>, events: seq<Event>, i: nat)
    requires i < |Run(Init(start, zones), events).returned|
    ensures var db := Run(Init(start, zones), events);
      var r := db.returned[i];
      exists t :: CurrentAt(db.history, r.version, t) && t <= r.at <= t + TTL_MS + (r.storedAt - r.fetchedAt)
  {
    RunKeepsInv(Init(start, zones), events);
    var db := Run(Init(start, zones), events);
    assert ReturnedOk(db, db.returned[i]);
    assert CurrentAt(db.history, db.returned[i].version, db.returned[i].fetchedAt);
  }

  /** With or without invalidation, a write is seen by every read later than the TTL plus that delay. */
  lemma ExpiryBoundsStaleness(start: int, zones: seq<Zone>, events: seq<Event>, i: nat, k: nat)
    requires i < |Run(Init(start, zones), events).returned| && k < |Run(Init(start, zones), events).history|
    ensures var db := Run(Init(start, zones), events);
      var r := db.returned[i];
      r.at > db.history[k].at + TTL_MS + (r.storedAt - r.fetchedAt) ==> r.version >= k
  {
    RunKeepsInv(Init(start, zones), events);
    var db := Run(Init(start, zones), events);
    assert ReturnedOk(db, db.returned[i]);
  }

  // --- a cache that fails -----------------------------------------------------------------------

  lemma RunTwo(db: Db, a: Event, b: Event)
    requires db.history != []
    ensures Run(db, [a, b]) == Step(Step(db, a), b)
  {
    assert [a, b][1..] == [b] && [b][1..] == [];
    assert Run(Step(db, a), [b]) == Run(Step(Step(db, a), b), []);
  }

  /** A read ends without an answer only when the query after a failure fails as well. */
  lemma LostOnlyByTwoFailures(db: Db, e: Event, reader: nat)
    requires db.history != [] && reader in db.readers && reader !in Step(db, e).readers
    ensures (exists r :: Step(db, e).returned == db.returned + [r] && r.ticket == db.readers[reader].ticket)
         || (e == Fetch(reader, true) && db.readers[reader].FallingBack?)
  {
    if e.Fetch? {
      var r := Returned(db.readers[reader].ticket, |db.history| - 1, db.now, db.now, db.now);
      assert e.failed || Step(db, e).returned == db.returned + [r];
    } else {
      var p := db.readers[reader];
      var r := Returned(p.ticket, p.version, p.fetchedAt, db.now, db.now);
      assert Step(db, e).returned == db.returned + [r];
    }
  }

  /** With the get or the set failing, the read still answers, with the table as it is then. */
  lemma CacheDownStillAnswers(db: Db, reader: nat, stored: bool)
    requires db.history != []
    ensures reader !in db.readers ==>
      exists r :: Run(db, [Get(reader, true), Fetch(reader, false)]).returned == db.returned + [r]
        && r.version == |db.history| - 1 && r.ticket == db.gets && r.fetchedAt == db.now
    ensures reader in db.readers && db.readers[reader].Fetched? ==>
      exists r :: Run(db, [Store(reader, stored, false), Fetch(reader, false)]).returned == db.returned + [r]
        && r.version == |db.history| - 1 && r.ticket == db.readers[reader].ticket && r.fetchedAt == db.now
  {
    RunTwo(db, Get(reader, true), Fetch(reader, false));
    RunTwo(db, Store(reader, stored, false), Fetch(reader, false));
    if reader !in db.readers {
      var r := Returned(db.gets, |db.history| - 1, db.now, db.now, db.now);
      assert Run(db, [Get(reader, true), Fetch(reader, false)]).returned == db.returned + [r];
    } else if db.readers[reader].Fetched? {
      var r := Returned(db.readers[reader].ticket, |db.history| - 1, db.now, db.now, db.now);
      assert Run(db, [Store(reader, stored, false), Fetch(reader, false)]).returned == db.returned + [r];
    }
  }

  /** A set that took effect is served to the next read, acknowledged or not. */
  lemma StoredIsServed(db: Db, reader: nat, other: nat, acknowledged: bool)
    requires db.history != [] && reader in db.readers && db.readers[reader].Fetched? && other !in db.readers
    ensures var end := Run(db, [Store(reader, true, acknowledged), Get(other, false)]);
      && |end.returned| == |db.returned| + (if acknowledged then 2 else 1)
      && end.returned[|end.returned| - 1].version == db.readers[reader].version
      && end.returned[|end.returned| - 1].ticket == db.gets
  {
    RunTwo(db, Store(reader, true, acknowledged), Get(other, false));
  }

  // --- reads after an invalidation -----------------------------------------------------------

  /** Neither the live cache entry nor a query in flight is older than version `k`. */
  ghost predicate Clean(db: Db, k: nat) {
    && k < |db.history|
    && (Live(db.cache, db.now) ==> db.cache.value.version >= k)
    && (forall r :: r in db.readers && db.readers[r].Fetched? ==> db.readers[r].version >= k)
  }

  lemma StepStaysClean(db: Db, e: Event, k: nat)
    requires Clean(db, k)
    ensures Clean(Step(db, e), k) && db.returned <= Step(db, e).returned
    ensures forall i :: |db.returned| <= i < |Step(db, e).returned| ==> Step(db, e).returned[i].version >= k
  {
  }

  lemma {:induction false} CleanReadsSeeTheWrite(db: Db, events: seq<Event>, k: nat)
    requires Clean(db, k)
    ensures Clean(Run(db, events), k) && db.returned <= Run(db, events).returned
    ensures forall i :: |db.returned| <= i < |Run(db, events).returned| ==> Run(db, events).returned[i].version >= k
    decreases |events|
  {
    if events != [] {
      StepStaysClean(db, events[0], k);
      var next := Step(db, events[0]);
      CleanReadsSeeTheWrite(next, events[1..], k);
      forall i | |db.returned| <= i < |Run(db, events).returned| ensures Run(db, events).returned[i].version >= k {
        if i < |next.returned| { assert Run(db, events).returned[i] == next.returned[i]; }
      }
    }
  }

  /** No query in flight is older than version `k`. */
  ghost predicate NoOlderFetch(db: Db, k: nat) {
    forall r :: r in db.readers && db.readers[r].Fetched? ==> db.readers[r].version >= k
  }

  /**
   * A write, then anything, then its successful invalidation: if at that moment no query
   * from before the write is in flight, every read that answers afterwards sees the write.
   */
  lemma InvalidatedWriteIsSeen(db: Db, zones: seq<Zone>, meanwhile: seq<Event>, later: seq<Event>)
    requires db.history != []
    requires NoOlderFetch(Run(Step(db, Write(zones)), meanwhile), |db.history|)
    ensures var k := |db.history|;
      var invalidated := Step(Run(Step(db, Write(zones)), meanwhile), Invalidate(true));
      var end := Run(invalidated, later);
      && k < |invalidated.history| && invalidated.history[k].zones == zones
      && |invalidated.returned| <= |end.returned|
      && forall i :: |invalidated.returned| <= i < |end.returned| ==> end.returned[i].version >= k
  {
    var written := Step(db, Write(zones));
    var before := Run(written, meanwhile);
    RunGrowsHistory(written, meanwhile);
    assert before.history[|db.history|] == written.history[|db.history|];
    CleanReadsSeeTheWrite(Step(before, Invalidate(true)), later, |db.history|);
  }

  lemma {:induction false} RunGrowsHistory(db: Db, events: seq<Event>)
    requires db.history != []
    ensures db.history <= Run(db, events).history
    decreases |events|
  {
    if events != [] {
      HistoryGrows(db, events[0]);
      RunGrowsHistory(Step(db, events[0]), events[1..]);
    }
  }

  /** A read that starts in or after state `db` answers with a version older than `k`. */
  ghost predicate StaleReadAfter(db: Db, events: seq<Event>, k: nat)
    requires db.history != []
  {
    exists i :: |db.returned| <= i < |Run(db, events).returned|
      && Run(db, events).returned[i].ticket >= db.gets && Run(db, events).returned[i].version < k
  }

  lemma CachedReadIsStale(db: Db, k: nat, reader: nat)
    requires db.history != [] && reader !in db.readers
    requires Live(db.cache, db.now) && db.cache.value.version < k
    ensures StaleReadAfter(db, [Get(reader, false)], k)
  {
    var after := Step(db, Get(reader, false));
    assert [Get(reader, false)][1..] == [] && Run(after, []) == after;
    assert Run(db, [Get(reader, false)]) == after;
    assert after.returned[|db.returned|].version < k;
  }

  lemma LateStoreIsStale(db: Db, k: nat, reader: nat)
    requires db.history != [] && reader in db.readers && db.readers[reader].Fetched? && db.readers[reader].version < k
    ensures StaleReadAfter(db, [Store(reader, true, true), Get(reader, false)], k)
  {
    var events := [Store(reader, true, true), Get(reader, false)];
    var stored := Step(db, events[0]);
    var after := Step(stored, Get(reader, false));
    assert events[1..] == [Get(reader, false)] && [Get(reader, false)][1..] == [];
    assert Run(stored, events[1..]) == Run(after, []) == after;
    assert Run(db, events) == after;
    assert after.returned[|db.returned| + 1].version < k;
  }

  /**
   * Exactly when a read that starts now or later can still miss version `k`: when the live
   * entry is older, or a query from before it is in flight and will be stored after the
   * invalidation.
   */
  lemma StaleReadExactly(db: Db, k: nat)
    requires k < |db.history|
    ensures (exists events :: StaleReadAfter(db, events, k)) <==> !Clean(db, k)
  {
    if Clean(db, k) {
      forall events ensures !StaleReadAfter(db, events, k) {
        CleanReadsSeeTheWrite(db, events, k);
      }
    } else if Live(db.cache, db.now) && db.cache.value.version < k {
      UnusedId(db.readers.Keys);
      var unused: nat :| unused !in db.readers.Keys;
      CachedReadIsStale(db, k, unused);
    } else {
      var r :| r in db.readers && db.readers[r].Fetched? && db.readers[r].version < k;
      LateStoreIsStale(db, k, r);
    }
  }

  /** Such a run from the start: a query in flight across a write and its invalidation is stored after both. */
  lemma StaleReadHappens(start: int, zones: seq<Zone>, later: seq<Zone>)
    ensures var before := [Get(0, false), Fetch(0, false), Write(later), Invalidate(true)];
      && |Run(Init(start, zones), before).history| == 2
      && StaleReadAfter(Run(Init(start, zones), before), [Store(0, true, true), Get(0, false)], 1)
  {
    var s1 := Step(Init(start, zones), Get(0, false));
    var s2 := Step(s1, Fetch(0, false));
    var s3 := Step(s2, Write(later));
    var s4 := Step(s3, Invalidate(true));
    var before := [Get(0, false), Fetch(0, false), Write(later), Invalidate(true)];
    assert before[1..] == [Fetch(0, false), Write(later), Invalidate(true)];
    assert before[1..][1..] == [Write(later), Invalidate(true)];
    assert before[1..][1..][1..] == [Invalidate(true)] && [Invalidate(true)][1..] == [];
    assert Run(s1, before[1..]) == Run(s2, before[1..][1..]) == Run(s3, [Invalidate(true)]) == Run(s4, []) == s4;
    LateStoreIsStale(s4, 1, 0);
  }
}
