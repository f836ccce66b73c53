/**
 * The zone cache service and the zone service as one process runs them, call after
 * call (src/user/alert-zone-cache.service.ts, src/user/alert-zone.service.ts). Every
 * call makes steps of `ZoneCache`, whose state the ghost field `db` follows.
 */
module ZoneServices {
  import opened Common
  import opened ZoneCache

  const MAX_ZONES_PER_USER := 10
  const MIN_RADIUS_METERS := 50
  const MAX_RADIUS_METERS := 5000

  datatype ZoneError = UserNotFound | TooManyZones | BadRadius | ZoneNotFound | Forbidden

  // --- the query ---------------------------------------------------------------------

  function InsertByPriority(z: Zone, sorted: seq<Zone>): seq<Zone> {
    if sorted == [] || z.priority > sorted[0].priority then [z] + sorted
    else [sorted[0]] + InsertByPriority(z, sorted[1..])
  }

  /** The active rows, highest priority first. */
  function ActiveZones(table: seq<Zone>): seq<Zone> {
    if table == [] then []
    else
      var rest := ActiveZones(table[..|table| - 1]);
      if table[|table| - 1].isActive then InsertByPriority(table[|table| - 1], rest) else rest
  }

  ghost predicate ByPriority(zones: seq<Zone>) {
    forall i, j :: 0 <= i < j < |zones| ==> zones[i].priority >= zones[j].priority
  }

  lemma {:induction false} InsertAdds(y: Zone, s: seq<Zone>, z: Zone)
    ensures Times(InsertByPriority(y, s), z) == Times(s, z) + if y == z then 1 else 0
    ensures forall x :: x in InsertByPriority(y, s) ==> x == y || x in s
  {
    TimesOne(y, z);
    if s == [] || y.priority > s[0].priority {
      TimesConcat([y], s, z);
    } else {
      InsertAdds(y, s[1..], z);
      TimesConcat([s[0]], InsertByPriority(y, s[1..]), z);
      TimesConcat([s[0]], s[1..], z);
      assert s == [s[0]] + s[1..];
    }
  }

  lemma {:induction false} InsertSorts(y: Zone, s: seq<Zone>)
    requires ByPriority(s)
    ensures ByPriority(InsertByPriority(y, s))
  {
    if s != [] && y.priority <= s[0].priority {
      var rest := InsertByPriority(y, s[1..]);
      InsertSorts(y, s[1..]);
      InsertAdds(y, s[1..], y);
      forall j | 0 <= j < |rest| ensures s[0].priority >= rest[j].priority {
        assert rest[j] in rest;
      }
    }
  }

  /** The query answers every active row as often as the table holds it, nothing else, by falling priority. */
  lemma {:induction false} ActiveZonesExactly(table: seq<Zone>, z: Zone)
    ensures ByPriority(ActiveZones(table))
    ensures Times(ActiveZones(table), z) == if z.isActive then Times(table, z) else 0
  {
    if table != [] {
      var n := |table| - 1;
      ActiveZonesExactly(table[..n], z);
      assert table == table[..n] + [table[n]];
      TimesConcat(table[..n], [table[n]], z);
      TimesOne(table[n], z);
      if table[n].isActive {
        InsertSorts(table[n], ActiveZones(table[..n]));
        InsertAdds(table[n], ActiveZones(table[..n]), z);
      }
    }
  }

  // --- the table -----------------------------------------------------------------------

  function CountOf(table: seq<Zone>, user: int): nat {
    if table == [] then 0 else CountOf(table[..|table| - 1], user) + if table[|table| - 1].user == user then 1 else 0
  }

  lemma {:induction false} CountConcat(a: seq<Zone>, b: seq<Zone>, user: int)
    ensures CountOf(a + b, user) == CountOf(a, user) + CountOf(b, user)
  {
    if b == [] {
      assert a + b == a;
    } else {
      assert (a + b)[..|a + b| - 1] == a + b[..|b| - 1];
      CountConcat(a, b[..|b| - 1], user);
    }
  }

  lemma CountAround(table: seq<Zone>, i: nat, middle: seq<Zone>, user: int)
    requires i < |table|
    ensures CountOf(table, user) == CountOf(table[..i], user) + CountOf([table[i]], user) + CountOf(table[i + 1..], user)
    ensures CountOf(table[..i] + middle + table[i + 1..], user)
         == CountOf(table[..i], user) + CountOf(middle, user) + CountOf(table[i + 1..], user)
  {
    assert table == table[..i] + [table[i]] + table[i + 1..];
    CountConcat(table[..i] + [table[i]], table[i + 1..], user);
    CountConcat(table[..i], [table[i]], user);
    CountConcat(table[..i] + middle, table[i + 1..], user);
    CountConcat(table[..i], middle, user);
  }

  predicate RadiusOk(radius: int) {
    MIN_RADIUS_METERS <= radius <= MAX_RADIUS_METERS
  }

  /** Distinct ids already given out, radii within bounds, and at most ten zones a user. */
  ghost predicate TableOk(table: seq<Zone>, nextId: nat) {
    && (forall i, j :: 0 <= i < j < |table| ==> table[i].id != table[j].id)
    && (forall i :: 0 <= i < |table| ==> table[i].id < nextId && RadiusOk(table[i].radius))
    && (forall user: int :: CountOf(table, user) <= MAX_ZONES_PER_USER)
  }

  function IndexOf(table: seq<Zone>, id: nat): (i: nat)
    ensures i <= |table| && (i < |table| ==> table[i].id == id)
    ensures i == |table| ==> forall k :: 0 <= k < |table| ==> table[k].id != id
  {
    if table == [] then 0
    else if table[0].id == id then 0
    else 1 + IndexOf(table[1..], id)
  }

  /** The fields an update may carry. */
  datatype Changes = Changes(radius: Option<int>, priority: Option<int>, isActive: Option<bool>, name: Option<string>)

  function Or<T>(o: Option<T>, default: T): T {
    if o.Some? then o.value else default
  }

  function Changed(z: Zone, c: Changes): Zone {
    z.(radius := Or(c.radius, z.radius), priority := Or(c.priority, z.priority),
       isActive := Or(c.isActive, z.isActive), name := Or(c.name, z.name))
  }

  lemma AppendKeepsTable(table: seq<Zone>, nextId: nat, z: Zone)
    requires TableOk(table, nextId) && z.id == nextId && RadiusOk(z.radius) && CountOf(table, z.user) < MAX_ZONES_PER_USER
    ensures TableOk(table + [z], nextId + 1)
  {
    var longer := table + [z];
    forall user: int ensures CountOf(longer, user) <= MAX_ZONES_PER_USER {
      assert longer[..|table|] == table;
    }
  }

  lemma ReplaceKeepsTable(table: seq<Zone>, nextId: nat, i: nat, z: Zone)
    requires TableOk(table, nextId) && i < |table| && z.id == table[i].id && z.user == table[i].user && RadiusOk(z.radius)
    ensures TableOk(table[i := z], nextId)
  {
    var replaced := table[i := z];
    forall user: int ensures CountOf(replaced, user) <= MAX_ZONES_PER_USER {
      CountAround(table, i, [z], user);
      assert replaced == table[..i] + [z] + table[i + 1..];
      assert [z][..0] == [] && [table[i]][..0] == [];
    }
  }

  lemma RemoveKeepsTable(table: seq<Zone>, nextId: nat, i: nat)
    requires TableOk(table, nextId) && i < |table|
    ensures TableOk(table[..i] + table[i + 1..], nextId)
  {
    var shorter := table[..i] + table[i + 1..];
    forall user: int ensures CountOf(shorter, user) <= MAX_ZONES_PER_USER {
      CountAround(table, i, [], user);
      assert shorter == table[..i] + [] + table[i + 1..];
    }
  }

  // --- what a call does, in the rows' own fields ---------------------------------------------------

  /** The list holds every active row as often as the table does, nothing else, by falling priority. */
  ghost predicate ListsActive(table: seq<Zone>, zones: seq<Zone>) {
    && (forall i, j :: 0 <= i < j < |zones| ==> zones[i].priority >= zones[j].priority)
    && (forall z :: multiset(zones)[z] == if z.isActive then multiset(table)[z] else 0)
  }

  lemma QueryListsActive(table: seq<Zone>)
    ensures ListsActive(table, ActiveZones(table))
  {
    var zones := ActiveZones(table);
    forall z: Zone ensures multiset(zones)[z] == if z.isActive then multiset(table)[z] else 0 {
      ActiveZonesExactly(table, z);
      TimesIsMultiplicity(zones, z);
      TimesIsMultiplicity(table, z);
    }
    if |table| > 0 { ActiveZonesExactly(table, table[0]); }
  }

  function RowsOf(table: seq<Zone>, user: int): set<nat> {
    set i: nat | i < |table| && table[i].user == user
  }

  lemma {:induction false} CountIsRows(table: seq<Zone>, user: int)
    ensures CountOf(table, user) == |RowsOf(table, user)|
  {
    if table != [] {
      var n := |table| - 1;
      CountIsRows(table[..n], user);
      assert RowsOf(table, user) == RowsOf(table[..n], user) + if table[n].user == user then {n} else {};
    }
  }

  ghost predicate Missing(table: seq<Zone>, id: nat) {
    forall i :: 0 <= i < |table| ==> table[i].id != id
  }

  /** The zone exists and belongs to another user. */
  ghost predicate Foreign(table: seq<Zone>, id: nat, user: int) {
    exists i :: 0 <= i < |table| && table[i].id == id && table[i].user != user
  }

  /** Row `z` after an update: every field the update carries is the update's, every other is the row's. */
  ghost predicate Patched(z: Zone, c: Changes, after: Zone) {
    && after.id == z.id && after.user == z.user
    && (c.radius.Some? ==> after.radius == c.radius.value) && (c.radius.None? ==> after.radius == z.radius)
    && (c.priority.Some? ==> after.priority == c.priority.value) && (c.priority.None? ==> after.priority == z.priority)
    && (c.isActive.Some? ==> after.isActive == c.isActive.value) && (c.isActive.None? ==> after.isActive == z.isActive)
    && (c.name.Some? ==> after.name == c.name.value) && (c.name.None? ==> after.name == z.name)
  }

  /** The one row with this id is patched. */
  ghost predicate UpdateLeaves(before: seq<Zone>, after: seq<Zone>, id: nat, c: Changes) {
    && |after| == |before|
    && (forall i :: 0 <= i < |before| && before[i].id == id ==> Patched(before[i], c, after[i]))
    && (forall i :: 0 <= i < |before| && before[i].id != id ==> after[i] == before[i])
  }

  /** The one row with this id is gone, and the others close up in their order. */
  ghost predicate DeleteLeaves(before: seq<Zone>, after: seq<Zone>, id: nat) {
    exists i :: 0 <= i < |before| && before[i].id == id && after == before[..i] + before[i + 1..]
  }

  /** The lookup of both writers finds the owner's row, another user's, or none. */
  lemma LookupExactly(table: seq<Zone>, nextId: nat, id: nat, user: int)
    requires TableOk(table, nextId)
    ensures var i := IndexOf(table, id);
      && (i == |table| <==> Missing(table, id))
      && (i < |table| && table[i].user != user <==> Foreign(table, id, user))
      && (forall k :: 0 <= k < |table| && table[k].id == id ==> k == i)
  {
    var i := IndexOf(table, id);
    forall k | 0 <= k < |table| && table[k].id == id ensures k == i {
    }
  }

  lemma UpdateExactly(table: seq<Zone>, nextId: nat, id: nat, c: Changes)
    requires TableOk(table, nextId) && IndexOf(table, id) < |table|
    ensures var i := IndexOf(table, id);
      UpdateLeaves(table, table[i := Changed(table[i], c)], id, c)
  {
    LookupExactly(table, nextId, id, table[IndexOf(table, id)].user);
  }

  lemma DeleteExactly(table: seq<Zone>, nextId: nat, id: nat)
    requires TableOk(table, nextId) && IndexOf(table, id) < |table|
    ensures var i := IndexOf(table, id);
      DeleteLeaves(table, table[..i] + table[i + 1..], id) && Missing(table[..i] + table[i + 1..], id)
  {
    LookupExactly(table, nextId, id, table[IndexOf(table, id)].user);
  }

  // --- an undisturbed read --------------------------------------------------------------------

  /** The state after a read that answers version `v`, queried and stored at the given instants. */
  ghost function AfterRead(db: Db, v: nat, fetchedAt: int, storedAt: int): Db {
    db.(gets := db.gets + 1, returned := db.returned + [Returned(db.gets, v, fetchedAt, storedAt, db.now)])
  }

  lemma HitReads(db: Db)
    requires Inv(db) && db.readers == map[] && Live(db.cache, db.now)
    ensures var e := db.cache.value;
      Inv(Step(db, Get(0, false))) && Step(db, Get(0, false)) == AfterRead(db, e.version, e.fetchedAt, e.storedAt)
  {
    StepKeepsInv(db, Get(0, false));
    assert db.readers - {0} == map[];
  }

  lemma MissReads(db: Db)
    requires Inv(db) && db.readers == map[] && !Live(db.cache, db.now)
    ensures var v := |db.history| - 1;
      var after := Step(Step(Step(db, Get(0, false)), Fetch(0, false)), Store(0, true, true));
      Inv(after) && after == AfterRead(db, v, db.now, db.now).(cache := Some(Entry(v, db.now, db.now)))
  {
    var missed := Step(db, Get(0, false));
    var fetched := Step(missed, Fetch(0, false));
    StepKeepsInv(db, Get(0, false));
    StepKeepsInv(missed, Fetch(0, false));
    StepKeepsInv(fetched, Store(0, true, true));
    assert fetched.readers - {0} == map[];
  }

  lemma FallbackReads(db: Db)
    requires Inv(db) && db.readers == map[]
    ensures var v := |db.history| - 1;
      var after := Step(Step(db, Get(0, true)), Fetch(0, false));
      Inv(after) && after == AfterRead(db, v, db.now, db.now)
  {
    var failed := Step(db, Get(0, true));
    StepKeepsInv(db, Get(0, true));
    StepKeepsInv(failed, Fetch(0, false));
    assert failed.readers - {0} == map[];
  }

  // --- the services -----------------------------------------------------------------------

  /** The value the cache store holds. */
  datatype Cached = Cached(zones: seq<Zone>, storedAt: int)

  class AlertZones {
    var now: int
    var table: seq<Zone>
    var nextId: nat
    var cache: Option<Cached>
    ghost var db: Db

    /** The cache store holds the list of the version that `db` says it holds; no read is in progress. */
    ghost predicate Follows()
      reads this
    {
      && Inv(db) && db.now == now && db.readers == map[]
      && (cache.Some? <==> db.cache.Some?)
      && (cache.Some? ==>
            cache.value.storedAt == db.cache.value.storedAt
            && cache.value.zones == db.history[db.cache.value.version].zones)
    }

    /** Moreover the table is sound and its active zones are the latest version. */
    ghost predicate Valid()
      reads this
    {
      Follows() && TableOk(table, nextId) && db.history[|db.history| - 1].zones == ActiveZones(table)
    }

    constructor (start: int)
      ensures Valid() && table == [] && cache == None && db == Init(start, [])
    {
      now, table, nextId, cache := start, [], 0, None;
      db := Init(start, []);
    }

    /**
     * `getActiveAlertZones`: a live entry is answered as it is; otherwise, or when the
     * cache cannot be reached, the answer is the table's.
     */
    method GetActiveAlertZones(cacheUp: bool) returns (zones: seq<Zone>)
      requires Valid()
      modifies this`cache, this`db
      ensures Valid()
      ensures var hit := cacheUp && old(cache).Some? && now <= old(cache).value.storedAt + 300_000;
        && (hit ==> zones == old(cache).value.zones)
        && (!hit ==> zones == ActiveZones(table) && ListsActive(table, zones))
        && cache == if cacheUp && !hit then Some(Cached(zones, now)) else old(cache)
      ensures db.history == old(db).history
      ensures |db.returned| == |old(db).returned| + 1
        && db.returned[|old(db).returned|].version < |db.history|
        && db.history[db.returned[|old(db).returned|].version].zones == zones
    {
      if cacheUp && cache.Some? && now <= cache.value.storedAt + TTL_MS {
        HitReads(db);
        db := Step(db, Get(0, false));
        return cache.value.zones;
      }
      zones := QueryZones(cacheUp);
    }

    /** The query, whose answer is stored when the cache is up. */
    method QueryZones(cacheUp: bool) returns (zones: seq<Zone>)
      requires Valid() && (cacheUp ==> !Live(db.cache, now))
      modifies this`cache, this`db
      ensures Valid() && zones == ActiveZones(table) && ListsActive(table, zones)
      ensures cache == if cacheUp then Some(Cached(zones, now)) else old(cache)
      ensures db.history == old(db).history
      ensures db.returned == old(db).returned + [Returned(old(db).gets, |db.history| - 1, now, now, now)]
    {
      QueryListsActive(table);
      zones := ActiveZones(table);
      if cacheUp {
        MissReads(db);
        db := Step(Step(Step(db, Get(0, false)), Fetch(0, false)), Store(0, true, true));
        cache := Some(Cached(zones, now));
      } else {
        FallbackReads(db);
        db := Step(Step(db, Get(0, true)), Fetch(0, false));
      }
    }

    /** `invalidateCache`: failures are swallowed. */
    method InvalidateCache(cacheUp: bool)
      requires Valid()
      modifies this`cache, this`db
      ensures Valid() && db == Step(old(db), Invalidate(cacheUp))
      ensures cache == if cacheUp then None else old(cache)
    {
      StepKeepsInv(db, Invalidate(cacheUp));
      db := Step(db, Invalidate(cacheUp));
      if cacheUp { cache := None; }
    }

    /** What every writer does once its statement has changed the table. */
    method Publish(cacheUp: bool)
      requires Follows() && TableOk(table, nextId)
      modifies this`cache, this`db
      ensures Valid() && db == Step(Step(old(db), Write(ActiveZones(table))), Invalidate(cacheUp))
      ensures cache == if cacheUp then None else old(cache)
    {
      ghost var zones := ActiveZones(table);
      StepKeepsInv(db, Write(zones));
      db := Step(db, Write(zones));
      InvalidateCache(cacheUp);
    }

    method Create(
      userId: int, userExists: bool, radius: int, priority: Option<int>, isActive: Option<bool>, name: string, cacheUp: bool)
      returns (error: Option<ZoneError>)
      requires Valid()
      modifies this
      ensures Valid()
      ensures error == if !userExists then Some(UserNotFound)
        else if |set i: nat | i < |old(table)| && old(table)[i].user == userId| >= 10 then Some(TooManyZones)
        else if radius < 50 || 5000 < radius then Some(BadRadius) else None
      ensures error.Some? ==> table == old(table) && cache == old(cache) && db == old(db)
      ensures error.None? ==>
        && table == old(table) + [Zone(old(nextId), userId, radius,
             if priority.Some? then priority.value else 1, if isActive.Some? then isActive.value else true, name)]
        && db == Step(Step(old(db), Write(ActiveZones(table))), Invalidate(cacheUp))
        && cache == if cacheUp then None else old(cache)
    {
      if !userExists { return Some(UserNotFound); }
      CountIsRows(table, userId);
      assert RowsOf(table, userId) == set i: nat | i < |table| && table[i].user == userId;
      if CountOf(table, userId) >= MAX_ZONES_PER_USER { return Some(TooManyZones); }
      if radius < MIN_RADIUS_METERS || radius > MAX_RADIUS_METERS { return Some(BadRadius); }
      var zone := Zone(nextId, userId, radius, Or(priority, 1), Or(isActive, true), name);
      AppendKeepsTable(table, nextId, zone);
      table := table + [zone];
      nextId := nextId + 1;
      Publish(cacheUp);
      return None;
    }

    method Update(zoneId: nat, changes: Changes, userId: int, cacheUp: bool) returns (error: Option<ZoneError>)
      requires Valid()
      modifies this
      ensures Valid()
      ensures error == Some(ZoneNotFound) <==> Missing(old(table), zoneId)
      ensures error == Some(Forbidden) <==> Foreign(old(table), zoneId, userId)
      ensures error == Some(BadRadius) <==>
        && !Missing(old(table), zoneId) && !Foreign(old(table), zoneId, userId)
        && changes.radius.Some? && (changes.radius.value < 50 || 5000 < changes.radius.value)
      ensures error.None? || error.value in {ZoneNotFound, Forbidden, BadRadius}
      ensures error.Some? ==> table == old(table) && cache == old(cache) && db == old(db)
      ensures error.None? ==>
        && UpdateLeaves(old(table), table, zoneId, changes)
        && db == Step(Step(old(db), Write(ActiveZones(table))), Invalidate(cacheUp))
        && cache == if cacheUp then None else old(cache)
    {
      LookupExactly(table, nextId, zoneId, userId);
      var i := IndexOf(table, zoneId);
      if i == |table| { return Some(ZoneNotFound); }
      if table[i].user != userId { return Some(Forbidden); }
      if changes.radius.Some? && (changes.radius.value < MIN_RADIUS_METERS || changes.radius.value > MAX_RADIUS_METERS) {
        return Some(BadRadius);
      }
      UpdateExactly(table, nextId, zoneId, changes);
      ReplaceKeepsTable(table, nextId, i, Changed(table[i], changes));
      table := table[i := Changed(table[i], changes)];
      Publish(cacheUp);
      return None;
    }

    method Delete(zoneId: nat, userId: int, cacheUp: bool) returns (error: Option<ZoneError>)
      requires Valid()
      modifies this
      ensures Valid()
      ensures error == Some(ZoneNotFound) <==> Missing(old(table), zoneId)
      ensures error == Some(Forbidden) <==> Foreign(old(table), zoneId, userId)
      ensures error.None? || error.value in {ZoneNotFound, Forbidden}
      ensures error.Some? ==> table == old(table) && cache == old(cache) && db == old(db)
      ensures error.None? ==>
        && DeleteLeaves(old(table), table, zoneId) && Missing(table, zoneId)
        && db == Step(Step(old(db), Write(ActiveZones(table))), Invalidate(cacheUp))
        && cache == if cacheUp then None else old(cache)
    {
      LookupExactly(table, nextId, zoneId, userId);
      var i := IndexOf(table, zoneId);
      if i == |table| { return Some(ZoneNotFound); }
      if table[i].user != userId { return Some(Forbidden); }
      DeleteExactly(table, nextId, zoneId);
      RemoveKeepsTable(table, nextId, i);
      table := table[..i] + table[i + 1..];
      Publish(cacheUp);
      return None;
    }
  }
}
