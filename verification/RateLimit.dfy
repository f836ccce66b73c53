/**
 * The alert-creation rate limiter (src/alert/rate-limit.service.ts): three
 * sliding windows over one Redis sorted set per user. Score and member are both
 * the timestamp, so the set holds distinct milliseconds in ascending order.
 */
module RateLimit {
  import opened Common

  /** `expire` is given the week in seconds plus one day. */
  const KEY_TTL_MS := 691_200_000

  datatype Window = Hourly | Daily | Weekly

  /** Configured counts; a negative setting is not rejected by the source. */
  datatype Limits = Limits(hourly: int, daily: int, weekly: int)

  datatype SortedSet = SortedSet(members: seq<int>, expiresAt: int)

  datatype Verdict = Admitted | Refused(window: Window, retryAfterSeconds: int)

  function Span(w: Window): int {
    match w
    case Hourly => HOUR_MS
    case Daily => DAY_MS
    case Weekly => WEEK_MS
  }

  function Limit(limits: Limits, w: Window): int {
    match w
    case Hourly => limits.hourly
    case Daily => limits.daily
    case Weekly => limits.weekly
  }

  // --- the sorted set ----------------------------------------------------------

  /** Timestamps from `cutoff` on, in order. */
  function From(ts: seq<int>, cutoff: int): seq<int> {
    if ts == [] then []
    else if ts[0] >= cutoff then [ts[0]] + From(ts[1..], cutoff)
    else From(ts[1..], cutoff)
  }

  function ZAdd(ts: seq<int>, t: int): seq<int> {
    if ts == [] || t < ts[0] then [t] + ts
    else if t == ts[0] then ts
    else [ts[0]] + ZAdd(ts[1..], t)
  }

  /** What the server returns for the key at an instant. */
  function Stored(key: Option<SortedSet>, now: int): seq<int> {
    if key.None? || now >= key.value.expiresAt then [] else key.value.members
  }

  // --- the service -------------------------------------------------------------

  function CountInWindow(ts: seq<int>, now: int, windowMs: int): nat {
    |From(ts, now - windowMs)|
  }

  function CeilDiv(a: int, b: int): int
    requires b > 0
  {
    -((-a) / b)
  }

  function GetRetryAfter(ts: seq<int>, now: int, windowMs: int): int {
    var relevant := From(ts, now - windowMs);
    if relevant == [] then 0
    else
      var seconds := CeilDiv(relevant[0] + windowMs - now, 1000);
      if seconds < 0 then 0 else seconds
  }

  /** The decision on a list of timestamps: the first window that is full refuses. */
  function Decide(limits: Limits, ts: seq<int>, now: int): Verdict {
    if CountInWindow(ts, now, HOUR_MS) >= limits.hourly then Refused(Hourly, GetRetryAfter(ts, now, HOUR_MS))
    else if CountInWindow(ts, now, DAY_MS) >= limits.daily then Refused(Daily, GetRetryAfter(ts, now, DAY_MS))
    else if CountInWindow(ts, now, WEEK_MS) >= limits.weekly then Refused(Weekly, GetRetryAfter(ts, now, WEEK_MS))
    else Admitted
  }

  function RecordAlertCreation(key: Option<SortedSet>, now: int): SortedSet {
    SortedSet(From(ZAdd(Stored(key, now), now), now - WEEK_MS + 1), now + KEY_TTL_MS)
  }

  function Check(limits: Limits, key: Option<SortedSet>, now: int): (Option<SortedSet>, Verdict) {
    var verdict := Decide(limits, Stored(key, now), now);
    (if verdict.Admitted? then Some(RecordAlertCreation(key, now)) else key, verdict)
  }

  // --- the history it stands for ------------------------------------------------

  ghost predicate Ascending(ts: seq<int>) {
    forall i, j :: 0 <= i < j < |ts| ==> ts[i] < ts[j]
  }

  /** The set is the part of the admitted creation times that the last admission did not prune. */
  ghost predicate Represents(key: Option<SortedSet>, history: seq<int>) {
    && Ascending(history)
    && (history == [] <==> key.None?)
    && (history != [] ==>
          var last := history[|history| - 1];
          key.value == SortedSet(From(history, last - WEEK_MS + 1), last + KEY_TTL_MS))
  }

  ghost predicate NotBefore(history: seq<int>, now: int) {
    history == [] || history[|history| - 1] <= now
  }

  /** Distinct creation times grow by admissions only. */
  function Extend(history: seq<int>, now: int): seq<int> {
    if history != [] && history[|history| - 1] == now then history else history + [now]
  }

  lemma {:induction false} FromMembers(ts: seq<int>, cutoff: int)
    requires Ascending(ts)
    ensures Ascending(From(ts, cutoff))
    ensures forall t :: t in From(ts, cutoff) <==> t in ts && t >= cutoff
  {
    if ts != [] {
      FromMembers(ts[1..], cutoff);
      var rest := From(ts[1..], cutoff);
      forall j | 0 <= j < |rest| ensures rest[j] > ts[0] {
        assert rest[j] in rest;
        var k :| 0 <= k < |ts[1..]| && ts[1..][k] == rest[j];
      }
      forall t ensures t in From(ts, cutoff) <==> t in ts && t >= cutoff {
        assert t in ts <==> t == ts[0] || t in ts[1..];
      }
    }
  }

  lemma {:induction false} FromAppend(ts: seq<int>, t: int, cutoff: int)
    ensures From(ts + [t], cutoff) == From(ts, cutoff) + (if t >= cutoff then [t] else [])
  {
    if ts == [] {
      assert ts + [t] == [t];
      assert [t][1..] == [];
    } else {
      assert (ts + [t])[1..] == ts[1..] + [t];
      FromAppend(ts[1..], t, cutoff);
    }
  }

  lemma {:induction false} FromTwice(ts: seq<int>, low: int, high: int)
    requires low <= high
    ensures From(From(ts, low), high) == From(ts, high)
  {
    if ts != [] {
      FromTwice(ts[1..], low, high);
      if ts[0] >= low { assert ([ts[0]] + From(ts[1..], low))[1..] == From(ts[1..], low); }
    }
  }

  lemma {:induction false} FromNone(ts: seq<int>, cutoff: int)
    requires forall i :: 0 <= i < |ts| ==> ts[i] < cutoff
    ensures From(ts, cutoff) == []
  {
    if ts != [] { FromNone(ts[1..], cutoff); }
  }

  lemma {:induction false} ZAddLatest(ts: seq<int>, t: int)
    requires Ascending(ts) && NotBefore(ts, t)
    ensures ZAdd(ts, t) == Extend(ts, t)
  {
    if ts != [] {
      var rest := ts[1..];
      assert ts == [ts[0]] + rest;
      if rest == [] {
        assert ZAdd(rest, t) == [t];
      } else {
        assert rest[|rest| - 1] == ts[|ts| - 1] > ts[0];
        ZAddLatest(rest, t);
        assert Extend(ts, t) == [ts[0]] + Extend(rest, t);
      }
    }
  }

  /** The part of the set any window can see is the part of the history it can see. */
  lemma StoredIsEnough(key: Option<SortedSet>, history: seq<int>, now: int, cutoff: int)
    requires Represents(key, history) && NotBefore(history, now) && now - WEEK_MS <= cutoff
    requires history != [] ==> history[|history| - 1] - WEEK_MS < cutoff
    ensures From(Stored(key, now), cutoff) == From(history, cutoff)
  {
    if history != [] {
      var last := history[|history| - 1];
      if now >= last + KEY_TTL_MS {
        FromNone(history, cutoff);
      } else {
        FromTwice(history, last - WEEK_MS + 1, cutoff);
      }
    }
  }

  /** At every later millisecond the set decides as the full history would, retry hint included. */
  lemma DecidesAsHistory(limits: Limits, key: Option<SortedSet>, history: seq<int>, now: int)
    requires Represents(key, history) && (history == [] || history[|history| - 1] < now)
    ensures Decide(limits, Stored(key, now), now) == Decide(limits, history, now)
  {
    StoredIsEnough(key, history, now, now - HOUR_MS);
    StoredIsEnough(key, history, now, now - DAY_MS);
    StoredIsEnough(key, history, now, now - WEEK_MS);
  }

  lemma StoredInOrder(key: Option<SortedSet>, history: seq<int>, now: int)
    requires Represents(key, history) && NotBefore(history, now)
    ensures var stored := Stored(key, now);
      && Ascending(stored) && NotBefore(stored, now)
      && (now in stored <==> now in history)
  {
    if history != [] {
      var last := history[|history| - 1];
      FromMembers(history, last - WEEK_MS + 1);
      var recent := From(history, last - WEEK_MS + 1);
      if recent != [] { assert recent[|recent| - 1] in recent; }
    }
  }

  lemma LastIs(ts: seq<int>, t: int)
    requires Ascending(ts) && NotBefore(ts, t)
    ensures t in ts <==> ts != [] && ts[|ts| - 1] == t
  {
  }

  lemma ExtendBoth(stored: seq<int>, history: seq<int>, now: int, cutoff: int)
    requires From(stored, cutoff) == From(history, cutoff)
    requires (stored != [] && stored[|stored| - 1] == now) <==> (history != [] && history[|history| - 1] == now)
    ensures From(Extend(stored, now), cutoff) == From(Extend(history, now), cutoff)
  {
    FromAppend(history, now, cutoff);
    FromAppend(stored, now, cutoff);
  }

  lemma ExtendAscends(history: seq<int>, now: int)
    requires Ascending(history) && NotBefore(history, now)
    ensures Ascending(Extend(history, now)) && Extend(history, now) != []
    ensures Extend(history, now)[|Extend(history, now)| - 1] == now
  {
  }

  /** An admission keeps the representation. */
  lemma RecordRepresents(key: Option<SortedSet>, history: seq<int>, now: int)
    requires Represents(key, history) && NotBefore(history, now)
    ensures Represents(Some(RecordAlertCreation(key, now)), Extend(history, now))
  {
    var stored, cutoff := Stored(key, now), now - WEEK_MS + 1;
    StoredInOrder(key, history, now);
    StoredIsEnough(key, history, now, cutoff);
    LastIs(stored, now);
    LastIs(history, now);
    ExtendBoth(stored, history, now, cutoff);
    ZAddLatest(stored, now);
    ExtendAscends(history, now);
  }

  // --- windows never overflow ---------------------------------------------------

  /** Timestamps of the closed window that starts at `at` and lasts `span`. */
  function Between(ts: seq<int>, at: int, span: int): seq<int> {
    if ts == [] then []
    else (if at <= ts[0] <= at + span then [ts[0]] else []) + Between(ts[1..], at, span)
  }

  lemma {:induction false} BetweenAppend(ts: seq<int>, t: int, at: int, span: int)
    ensures Between(ts + [t], at, span) == Between(ts, at, span) + (if at <= t <= at + span then [t] else [])
  {
    if ts == [] {
      assert ts + [t] == [t];
      assert [t][1..] == [];
    } else {
      assert (ts + [t])[1..] == ts[1..] + [t];
      BetweenAppend(ts[1..], t, at, span);
    }
  }

  lemma {:induction false} BetweenWithinFrom(ts: seq<int>, at: int, span: int, cutoff: int)
    requires cutoff <= at
    ensures |Between(ts, at, span)| <= |From(ts, cutoff)|
  {
    if ts != [] { BetweenWithinFrom(ts[1..], at, span, cutoff); }
  }

  lemma {:induction false} FromIsBetween(ts: seq<int>, at: int, span: int)
    requires forall i :: 0 <= i < |ts| ==> ts[i] <= at + span
    ensures Between(ts, at, span) == From(ts, at)
  {
    if ts != [] { FromIsBetween(ts[1..], at, span); }
  }

  function Cap(limits: Limits, w: Window): nat {
    if Limit(limits, w) < 0 then 0 else Limit(limits, w)
  }

  /** No closed window of an hour, a day or a week holds more than its limit of distinct creation times. */
  ghost predicate WithinLimits(limits: Limits, history: seq<int>) {
    forall w: Window, at: int :: |Between(history, at, Span(w))| <= Cap(limits, w)
  }

  lemma AdmissionStaysWithinLimits(limits: Limits, key: Option<SortedSet>, history: seq<int>, now: int)
    requires Represents(key, history) && NotBefore(history, now) && WithinLimits(limits, history)
    requires Decide(limits, Stored(key, now), now).Admitted?
    ensures WithinLimits(limits, Extend(history, now))
  {
    if history == [] || history[|history| - 1] < now {
      DecidesAsHistory(limits, key, history, now);
      forall w: Window, at: int ensures |Between(history + [now], at, Span(w))| <= Cap(limits, w) {
        BetweenAppend(history, now, at, Span(w));
        assert |Between(history, at, Span(w))| <= Cap(limits, w);
        if at <= now <= at + Span(w) {
          BetweenWithinFrom(history, at, Span(w), now - Span(w));
        }
      }
    }
  }

  // --- whole runs ---------------------------------------------------------------

  ghost predicate InOrder(times: seq<int>) {
    forall i, j :: 0 <= i < j < |times| ==> times[i] <= times[j]
  }

  /** The creation times admitted when the attempts come at `times`. */
  function HistoryAfter(limits: Limits, key: Option<SortedSet>, history: seq<int>, times: seq<int>): seq<int>
    decreases |times|
  {
    if times == [] then history
    else
      var (next, verdict) := Check(limits, key, times[0]);
      HistoryAfter(limits, next, if verdict.Admitted? then Extend(history, times[0]) else history, times[1..])
  }

  function Verdicts(limits: Limits, key: Option<SortedSet>, times: seq<int>): seq<Verdict>
    decreases |times|
  {
    if times == [] then []
    else
      var (next, verdict) := Check(limits, key, times[0]);
      [verdict] + Verdicts(limits, next, times[1..])
  }

  /** A limiter that never forgets an admission. */
  function FullVerdicts(limits: Limits, history: seq<int>, times: seq<int>): seq<Verdict>
    decreases |times|
  {
    if times == [] then []
    else
      var verdict := Decide(limits, history, times[0]);
      [verdict] + FullVerdicts(limits, if verdict.Admitted? then Extend(history, times[0]) else history, times[1..])
  }

  /** Whatever the attempts, even several in one millisecond, no window ever overflows. */
  lemma {:induction false} RunStaysWithinLimits(limits: Limits, key: Option<SortedSet>, history: seq<int>, times: seq<int>)
    requires Represents(key, history) && WithinLimits(limits, history)
    requires InOrder(times) && (times != [] ==> NotBefore(history, times[0]))
    ensures WithinLimits(limits, HistoryAfter(limits, key, history, times))
    decreases |times|
  {
    if times != [] {
      var now := times[0];
      var (next, verdict) := Check(limits, key, now);
      if verdict.Admitted? {
        RecordRepresents(key, history, now);
        AdmissionStaysWithinLimits(limits, key, history, now);
        RunStaysWithinLimits(limits, next, Extend(history, now), times[1..]);
      } else {
        RunStaysWithinLimits(limits, next, history, times[1..]);
      }
    }
  }

  /** With pruning and key expiry the service answers as the limiter that never forgets. */
  lemma {:induction false} PruningIsInvisible(limits: Limits, key: Option<SortedSet>, history: seq<int>, times: seq<int>)
    requires Represents(key, history) && Ascending(times)
    requires times != [] ==> history == [] || history[|history| - 1] < times[0]
    ensures Verdicts(limits, key, times) == FullVerdicts(limits, history, times)
    decreases |times|
  {
    if times != [] {
      var now := times[0];
      var (next, verdict) := Check(limits, key, now);
      DecidesAsHistory(limits, key, history, now);
      if verdict.Admitted? {
        RecordRepresents(key, history, now);
        PruningIsInvisible(limits, next, Extend(history, now), times[1..]);
      } else {
        PruningIsInvisible(limits, next, history, times[1..]);
      }
    }
  }

  lemma {:induction false} FromNext(ts: seq<int>, cutoff: int)
    requires Ascending(ts)
    ensures |From(ts, cutoff)| == |From(ts, cutoff + 1)| + (if cutoff in ts then 1 else 0)
  {
    if ts != [] {
      FromNext(ts[1..], cutoff);
      assert cutoff in ts <==> cutoff == ts[0] || cutoff in ts[1..];
    }
  }

  lemma WeeklyDiffersByOne(key: Option<SortedSet>, history: seq<int>, now: int)
    requires Represents(key, history) && history != [] && history[|history| - 1] == now
    ensures CountInWindow(history, now, WEEK_MS)
         == CountInWindow(Stored(key, now), now, WEEK_MS) + (if now - WEEK_MS in history then 1 else 0)
  {
    var stored := Stored(key, now);
    assert stored == From(history, now - WEEK_MS + 1);
    FromNext(history, now - WEEK_MS);
    FromMembers(history, now - WEEK_MS + 1);
    forall i | 0 <= i < |stored| ensures stored[i] >= now - WEEK_MS { assert stored[i] in stored; }
    FromAll(stored, now - WEEK_MS);
  }

  /**
   * Only a second attempt in the very millisecond of the last admission can be
   * answered differently: the admission at exactly one week's distance is pruned
   * but still inside the closed window.
   */
  lemma SameMillisecondExactly(limits: Limits, key: Option<SortedSet>, history: seq<int>, now: int)
    requires Represents(key, history) && history != [] && history[|history| - 1] == now
    ensures Decide(limits, Stored(key, now), now).Admitted? != Decide(limits, history, now).Admitted?
       <==> && now - WEEK_MS in history
            && CountInWindow(history, now, HOUR_MS) < limits.hourly
            && CountInWindow(history, now, DAY_MS) < limits.daily
            && CountInWindow(history, now, WEEK_MS) == limits.weekly
  {
    assert CountInWindow(Stored(key, now), now, HOUR_MS) == CountInWindow(history, now, HOUR_MS) by {
      StoredIsEnough(key, history, now, now - HOUR_MS);
    }
    assert CountInWindow(Stored(key, now), now, DAY_MS) == CountInWindow(history, now, DAY_MS) by {
      StoredIsEnough(key, history, now, now - DAY_MS);
    }
    WeeklyDiffersByOne(key, history, now);
  }

  /** Such a second attempt exists: admissions a week apart, when two are allowed per week. */
  lemma SameMillisecondCanDiffer(t: int, now: int, limits: Limits)
    requires limits.hourly >= 2 && limits.daily >= 2 && limits.weekly == 2 && now == t + WEEK_MS
    ensures var key := Some(RecordAlertCreation(Some(RecordAlertCreation(None, t)), now));
      Decide(limits, Stored(key, now), now).Admitted? != Decide(limits, [t, now], now).Admitted?
  {
    PairRepresents(t, now);
    PairCounts(t, now);
    var history := [t, now];
    SameMillisecondExactly(limits, Some(RecordAlertCreation(Some(RecordAlertCreation(None, t)), now)), history, now);
  }

  lemma PairRepresents(t: int, now: int)
    requires t < now
    ensures Represents(Some(RecordAlertCreation(Some(RecordAlertCreation(None, t)), now)), [t, now])
  {
    var first := Some(RecordAlertCreation(None, t));
    RecordRepresents(None, [], t);
    assert [] + [t] == [t];
    RecordRepresents(first, [t], now);
    assert [t] + [now] == [t, now];
  }

  lemma PairCounts(t: int, now: int)
    requires now == t + WEEK_MS
    ensures CountInWindow([t, now], now, HOUR_MS) == 1 && CountInWindow([t, now], now, DAY_MS) == 1
    ensures CountInWindow([t, now], now, WEEK_MS) == 2 && now - WEEK_MS in [t, now]
  {
    FromPair(t, now, now - HOUR_MS);
    FromPair(t, now, now - DAY_MS);
    FromPair(t, now, now - WEEK_MS);
  }

  lemma FromPair(a: int, b: int, cutoff: int)
    ensures From([a, b], cutoff) == (if a >= cutoff then [a] else []) + (if b >= cutoff then [b] else [])
  {
    assert [a, b] == [a] + [b];
    FromAppend([a], b, cutoff);
    FromAppend([], a, cutoff);
    assert [] + [a] == [a];
  }

  lemma {:induction false} FromAll(ts: seq<int>, cutoff: int)
    requires forall i :: 0 <= i < |ts| ==> ts[i] >= cutoff
    ensures From(ts, cutoff) == ts
  {
    if ts != [] {
      FromAll(ts[1..], cutoff);
      assert ts == [ts[0]] + ts[1..];
    }
  }

  // --- the retry hint ------------------------------------------------------------

  ghost predicate WindowRefuses(limits: Limits, key: Option<SortedSet>, w: Window, now: int) {
    CountInWindow(Stored(key, now), now, Span(w)) >= Limit(limits, w)
  }

  /** The creations the refusing window counts. */
  function Counted(key: Option<SortedSet>, w: Window, now: int): seq<int> {
    From(Stored(key, now), now - Span(w))
  }

  lemma CountedInOrder(key: Option<SortedSet>, history: seq<int>, w: Window, now: int)
    requires Represents(key, history) && NotBefore(history, now)
    ensures var counted := Counted(key, w, now);
      && Ascending(counted)
      && (forall i :: 0 <= i < |counted| ==> counted[i] in Stored(key, now) && now - Span(w) <= counted[i] <= now)
  {
    var stored, counted := Stored(key, now), Counted(key, w, now);
    StoredInOrder(key, history, now);
    FromMembers(stored, now - Span(w));
    forall i | 0 <= i < |counted| ensures counted[i] in stored && now - Span(w) <= counted[i] <= now {
      assert counted[i] in counted;
      UpTo(stored, counted[i], now);
    }
  }

  lemma UpTo(ts: seq<int>, t: int, now: int)
    requires Ascending(ts) && NotBefore(ts, now) && t in ts
    ensures t <= now
  {
  }

  lemma CountedWithinLimit(limits: Limits, key: Option<SortedSet>, history: seq<int>, w: Window, now: int)
    requires Represents(key, history) && NotBefore(history, now) && WithinLimits(limits, history)
    ensures |Counted(key, w, now)| <= Cap(limits, w)
  {
    FromIsBetween(history, now - Span(w), Span(w));
    assert |Between(history, now - Span(w), Span(w))| <= Cap(limits, w);
    StoredCountsLess(key, history, now, now - Span(w));
  }

  lemma {:induction false} SuffixCountsLess(ts: seq<int>, low: int, cutoff: int)
    ensures |From(From(ts, low), cutoff)| <= |From(ts, cutoff)|
  {
    if ts != [] {
      SuffixCountsLess(ts[1..], low, cutoff);
      if ts[0] >= low { assert ([ts[0]] + From(ts[1..], low))[1..] == From(ts[1..], low); }
    }
  }

  lemma StoredCountsLess(key: Option<SortedSet>, history: seq<int>, now: int, cutoff: int)
    requires Represents(key, history)
    ensures |From(Stored(key, now), cutoff)| <= |From(history, cutoff)|
  {
    if history != [] { SuffixCountsLess(history, history[|history| - 1] - WEEK_MS + 1, cutoff); }
  }

  lemma {:induction false} FromDropsFirst(ts: seq<int>, low: int, cutoff: int)
    requires Ascending(ts) && low <= cutoff && From(ts, low) != [] && From(ts, low)[0] < cutoff
    ensures |From(ts, cutoff)| < |From(ts, low)|
  {
    var kept := From(ts, low);
    FromTwice(ts, low, cutoff);
    FromShorter(kept[1..], cutoff);
  }

  lemma {:induction false} FromShorter(ts: seq<int>, cutoff: int)
    ensures |From(ts, cutoff)| <= |ts|
  {
    if ts != [] { FromShorter(ts[1..], cutoff); }
  }

  lemma CeilBounds(a: int)
    ensures a <= 1000 * CeilDiv(a, 1000) < a + 1000
    ensures 1000 * CeilDiv(a, 1000) == a <==> a % 1000 == 0
  {
  }

  /**
   * When a window with a positive limit refuses and nothing else is recorded:
   * it goes on refusing up to the oldest counted creation plus its span, admits
   * at every instant after the hint, and the two differ by less than a second.
   */
  lemma RetryHintIsTight(
    limits: Limits, key: Option<SortedSet>, history: seq<int>, w: Window, now: int, later: int)
    requires Represents(key, history) && NotBefore(history, now) && WithinLimits(limits, history)
    requires Limit(limits, w) >= 1 && WindowRefuses(limits, key, w, now) && now <= later
    ensures Counted(key, w, now) != []
    ensures var frees := Counted(key, w, now)[0] + Span(w);
      var hint := now + 1000 * GetRetryAfter(Stored(key, now), now, Span(w));
      && (WindowRefuses(limits, key, w, later) <==> later <= frees)
      && frees <= hint < frees + 1000
      && (WindowRefuses(limits, key, w, hint) <==> (frees - now) % 1000 == 0)
  {
    CountedInOrder(key, history, w, now);
    HintIsTheCeiling(Stored(key, now), now, Span(w));
    RefusesUntil(limits, key, history, w, now, later);
    RefusesUntil(limits, key, history, w, now, now + 1000 * GetRetryAfter(Stored(key, now), now, Span(w)));
  }

  /** The hint is the time to the end of the window, rounded up to whole seconds. */
  lemma HintIsTheCeiling(ts: seq<int>, now: int, span: int)
    requires From(ts, now - span) != [] && From(ts, now - span)[0] >= now - span
    ensures var frees := From(ts, now - span)[0] + span;
      var hint := now + 1000 * GetRetryAfter(ts, now, span);
      frees <= hint < frees + 1000 && (hint == frees <==> (frees - now) % 1000 == 0)
  {
    CeilBounds(From(ts, now - span)[0] + span - now);
  }

  lemma RefusesUntil(
    limits: Limits, key: Option<SortedSet>, history: seq<int>, w: Window, now: int, later: int)
    requires Represents(key, history) && NotBefore(history, now) && WithinLimits(limits, history)
    requires Limit(limits, w) >= 1 && WindowRefuses(limits, key, w, now) && now <= later
    requires Counted(key, w, now) != []
    ensures WindowRefuses(limits, key, w, later) <==> later <= Counted(key, w, now)[0] + Span(w)
  {
    if later <= Counted(key, w, now)[0] + Span(w) {
      SameCount(key, history, w, now, later);
    } else {
      FewerCount(key, history, w, now, later);
      CountedWithinLimit(limits, key, history, w, now);
    }
  }

  lemma SameCount(key: Option<SortedSet>, history: seq<int>, w: Window, now: int, later: int)
    requires Represents(key, history) && NotBefore(history, now) && now <= later
    requires Counted(key, w, now) != [] && later <= Counted(key, w, now)[0] + Span(w)
    ensures Counted(key, w, later) == Counted(key, w, now)
  {
    var stored, counted := Stored(key, now), Counted(key, w, now);
    CountedInOrder(key, history, w, now);
    NotYetExpired(key, history, counted[0], now, later);
    FromTwice(stored, now - Span(w), later - Span(w));
    FromAll(counted, later - Span(w));
  }

  lemma FewerCount(key: Option<SortedSet>, history: seq<int>, w: Window, now: int, later: int)
    requires Represents(key, history) && NotBefore(history, now) && now <= later
    requires Counted(key, w, now) != [] && later > Counted(key, w, now)[0] + Span(w)
    ensures |Counted(key, w, later)| < |Counted(key, w, now)|
  {
    var stored, low, high := Stored(key, now), now - Span(w), later - Span(w);
    StoredOrGone(key, now, later);
    StoredInOrder(key, history, now);
    FromDropsFirst(stored, low, high);
  }

  lemma StoredOrGone(key: Option<SortedSet>, now: int, later: int)
    requires now <= later
    ensures Stored(key, later) == Stored(key, now) || Stored(key, later) == []
  {
  }

  lemma NotYetExpired(key: Option<SortedSet>, history: seq<int>, t: int, now: int, later: int)
    requires Represents(key, history) && t in Stored(key, now) && later <= t + WEEK_MS
    ensures Stored(key, later) == Stored(key, now)
  {
    var last := history[|history| - 1];
    FromMembers(history, last - WEEK_MS + 1);
    assert t in history;
  }

  // --- the verdict, read off the history -------------------------------------------

  /** A window counts each creation time once. */
  lemma {:induction false} FromCounts(ts: seq<int>, cutoff: int)
    requires Ascending(ts)
    ensures |From(ts, cutoff)| == |(set t | t in ts && t >= cutoff)|
  {
    if ts == [] {
      assert (set t | t in ts && t >= cutoff) == {};
    } else {
      FromCounts(ts[1..], cutoff);
      var rest := set t | t in ts[1..] && t >= cutoff;
      assert ts[0] !in rest;
      assert forall t :: t in ts <==> t == ts[0] || t in ts[1..];
      assert (set t | t in ts && t >= cutoff) == if ts[0] >= cutoff then rest + {ts[0]} else rest;
    }
  }

  /** The hint waits for the oldest creation counted to leave its window, in whole seconds rounded up. */
  ghost predicate HintFits(counted: set<int>, span: int, now: int, seconds: int) {
    if counted == {} then seconds == 0
    else exists oldest :: oldest in counted && (forall t :: t in counted ==> oldest <= t)
           && oldest + span <= now + 1000 * seconds < oldest + span + 1000
  }

  lemma HintFitsWindow(ts: seq<int>, history: seq<int>, now: int, span: int, cutoff: int)
    requires Ascending(history) && now - span <= cutoff && From(ts, now - span) == From(history, cutoff)
    ensures HintFits((set t | t in history && t >= cutoff), span, now, GetRetryAfter(ts, now, span))
  {
    var relevant, counted := From(history, cutoff), (set t | t in history && t >= cutoff);
    FromMembers(history, cutoff);
    if relevant == [] {
      assert forall t :: t in counted ==> t in relevant;
    } else {
      var oldest := relevant[0];
      assert oldest in relevant;
      HintIsTheCeiling(ts, now, span);
      assert oldest in counted;
      forall t | t in counted ensures oldest <= t {
        assert t in relevant;
        var i :| 0 <= i < |relevant| && relevant[i] == t;
      }
    }
  }

  /** What the weekly window sees: an admission in this very millisecond has pruned the one a week before it. */
  lemma WeekSeen(key: Option<SortedSet>, history: seq<int>, now: int)
    requires Represents(key, history) && NotBefore(history, now)
    ensures From(Stored(key, now), now - WEEK_MS)
         == From(history, if now in history then now - WEEK_MS + 1 else now - WEEK_MS)
  {
    LastIs(history, now);
    if now in history {
      FromMembers(history, now - WEEK_MS + 1);
      var stored := Stored(key, now);
      forall i | 0 <= i < |stored| ensures stored[i] >= now - WEEK_MS { assert stored[i] in stored; }
      FromAll(stored, now - WEEK_MS);
    } else {
      StoredIsEnough(key, history, now, now - WEEK_MS);
    }
  }

  /**
   * The verdict in terms of the creation times of the last hour, day and week: the first full
   * window refuses, with its own hint, and an attempt is admitted when none is full. A week
   * before an admission in this very millisecond is no longer counted.
   */
  ghost predicate VerdictOf(limits: Limits, history: seq<int>, now: int, verdict: Verdict) {
    var hour := set t | t in history && t >= now - 3_600_000;
    var day := set t | t in history && t >= now - 86_400_000;
    var week := set t | t in history && t >= if now in history then now - 604_799_999 else now - 604_800_000;
    match verdict
    case Admitted => |hour| < limits.hourly && |day| < limits.daily && |week| < limits.weekly
    case Refused(Hourly, seconds) => |hour| >= limits.hourly && HintFits(hour, 3_600_000, now, seconds)
    case Refused(Daily, seconds) =>
      |hour| < limits.hourly && |day| >= limits.daily && HintFits(day, 86_400_000, now, seconds)
    case Refused(Weekly, seconds) =>
      && |hour| < limits.hourly && |day| < limits.daily && |week| >= limits.weekly
      && HintFits(week, 604_800_000, now, seconds)
  }

  lemma VerdictExactly(limits: Limits, key: Option<SortedSet>, history: seq<int>, now: int)
    requires Represents(key, history) && NotBefore(history, now)
    ensures VerdictOf(limits, history, now, Check(limits, key, now).1)
  {
    var stored := Stored(key, now);
    var cutoff := if now in history then now - WEEK_MS + 1 else now - WEEK_MS;
    StoredIsEnough(key, history, now, now - HOUR_MS);
    StoredIsEnough(key, history, now, now - DAY_MS);
    WeekSeen(key, history, now);
    FromCounts(history, now - HOUR_MS);
    FromCounts(history, now - DAY_MS);
    FromCounts(history, cutoff);
    HintFitsWindow(stored, history, now, HOUR_MS, now - HOUR_MS);
    HintFitsWindow(stored, history, now, DAY_MS, now - DAY_MS);
    HintFitsWindow(stored, history, now, WEEK_MS, cutoff);
  }

  lemma VerdictIsUnique(limits: Limits, history: seq<int>, now: int, a: Verdict, b: Verdict)
    requires VerdictOf(limits, history, now, a) && VerdictOf(limits, history, now, b)
    ensures a == b
  {
  }

  /** An admission leaves the creations of the last week under the key, for eight days. */
  lemma KeyAfterAdmission(key: Option<SortedSet>, history: seq<int>, now: int)
    requires Represents(key, history) && NotBefore(history, now)
    ensures var after := RecordAlertCreation(key, now);
      && after.expiresAt == now + 691_200_000
      && forall t :: t in after.members <==> (t in history || t == now) && t > now - 604_800_000
  {
    RecordRepresents(key, history, now);
    var extended := Extend(history, now);
    FromMembers(extended, now - WEEK_MS + 1);
    LastIs(history, now);
    assert forall t :: t in extended <==> t in history || t == now;
  }

  // --- the service object ---------------------------------------------------------

  /** Redis as a field; `admitted` remembers every admission for the specification. */
  class RateLimitService {
    const limits: Limits
    var redis: map<int, SortedSet>
    ghost var admitted: map<int, seq<int>>

    function Key(user: int): Option<SortedSet>
      reads this
    {
      if user in redis then Some(redis[user]) else None
    }

    ghost function History(user: int): seq<int>
      reads this
    {
      if user in admitted then admitted[user] else []
    }

    ghost predicate Valid()
      reads this
    {
      forall user: int :: Represents(Key(user), History(user)) && WithinLimits(limits, History(user))
    }

    constructor (limits: Limits)
      ensures Valid() && this.limits == limits && forall user: int :: History(user) == []
    {
      this.limits := limits;
      redis, admitted := map[], map[];
    }

    /**
     * `checkAlertCreationLimit` and, when it passes, `recordAlertCreation`: the
     * user's key makes the step of `Check`, the first full window of the history refuses
     * with its own hint, the history grows exactly by an admission, no other user is
     * touched, and no window overflows.
     */
    method CheckAlertCreationLimit(user: int, now: int) returns (verdict: Verdict)
      requires Valid() && NotBefore(History(user), now)
      modifies this
      ensures Valid()
      ensures (Key(user), verdict) == Check(limits, old(Key(user)), now)
      ensures VerdictOf(limits, old(History(user)), now, verdict)
      ensures verdict.Refused? ==> redis == old(redis)
      ensures verdict.Admitted? ==>
        && Key(user).Some? && Key(user).value.expiresAt == now + 691_200_000
        && forall t :: t in Key(user).value.members <==> (t in old(History(user)) || t == now) && t > now - 604_800_000
      ensures History(user) == if verdict.Admitted? then Extend(old(History(user)), now) else old(History(user))
      ensures forall other: int :: other != user ==> Key(other) == old(Key(other)) && History(other) == old(History(other))
    {
      var timestamps := Stored(Key(user), now);
      verdict := Decide(limits, timestamps, now);
      VerdictExactly(limits, Key(user), History(user), now);
      if verdict.Admitted? { Record(user, now); }
    }

    /** `recordAlertCreation`. */
    method Record(user: int, now: int)
      requires Valid() && NotBefore(History(user), now) && Decide(limits, Stored(Key(user), now), now).Admitted?
      modifies this
      ensures Valid()
      ensures Key(user) == Some(RecordAlertCreation(old(Key(user)), now)) && History(user) == Extend(old(History(user)), now)
      ensures Key(user).value.expiresAt == now + 691_200_000
      ensures forall t :: t in Key(user).value.members <==> (t in old(History(user)) || t == now) && t > now - 604_800_000
      ensures forall other: int :: other != user ==> Key(other) == old(Key(other)) && History(other) == old(History(other))
    {
      ghost var history := History(user);
      RecordRepresents(Key(user), history, now);
      KeyAfterAdmission(Key(user), history, now);
      AdmissionStaysWithinLimits(limits, Key(user), history, now);
      redis := redis[user := RecordAlertCreation(Key(user), now)];
      admitted := admitted[user := Extend(history, now)];
      forall other: int ensures Represents(Key(other), History(other)) && WithinLimits(limits, History(other)) {
        if other != user {
          assert Key(other) == old(Key(other)) && History(other) == old(History(other));
          assert old(Represents(Key(other), History(other)));
        }
      }
    }
  }
}
