/**
 * Admissions counted one by one. The limiter's set holds distinct milliseconds, so attempts
 * that share one are counted once (src/alert/rate-limit.service.ts); its messages speak of a
 * number of alerts.
 */
module RateLimitAdmissions {
  import opened Common
  import opened RateLimit

  /** The instants of the admitted attempts, one for each. */
  function AdmittedTimes(limits: Limits, key: Option<SortedSet>, times: seq<int>): seq<int>
    decreases |times|
  {
    if times == [] then []
    else
      var (next, verdict) := Check(limits, key, times[0]);
      if verdict.Admitted? then [times[0]] + AdmittedTimes(limits, next, times[1..])
      else AdmittedTimes(limits, next, times[1..])
  }

  predicate SomeLimitAtMostOne(limits: Limits) {
    limits.hourly <= 1 || limits.daily <= 1 || limits.weekly <= 1
  }

  ghost predicate StrictlyLater(history: seq<int>, times: seq<int>) {
    Ascending(times) && (times != [] && history != [] ==> history[|history| - 1] < times[0])
  }

  lemma JustAdmittedIsCounted(key: Option<SortedSet>, history: seq<int>, now: int, span: int)
    requires Represents(key, history) && history != [] && history[|history| - 1] == now && span >= 0
    ensures CountInWindow(Stored(key, now), now, span) >= 1
  {
    StoredInOrder(key, history, now);
    FromMembers(Stored(key, now), now - span);
    assert now in From(Stored(key, now), now - span);
  }

  /** With a limit of one, a second attempt in the millisecond of an admission is refused. */
  lemma RepeatIsRefused(limits: Limits, key: Option<SortedSet>, history: seq<int>, now: int)
    requires Represents(key, history) && history != [] && history[|history| - 1] == now && SomeLimitAtMostOne(limits)
    ensures Decide(limits, Stored(key, now), now).Refused?
  {
    JustAdmittedIsCounted(key, history, now, HOUR_MS);
    JustAdmittedIsCounted(key, history, now, DAY_MS);
    JustAdmittedIsCounted(key, history, now, WEEK_MS);
  }

  lemma AdmittedIsNew(limits: Limits, key: Option<SortedSet>, history: seq<int>, now: int)
    requires Represents(key, history) && NotBefore(history, now) && Decide(limits, Stored(key, now), now).Admitted?
    requires SomeLimitAtMostOne(limits) || history == [] || history[|history| - 1] < now
    ensures Extend(history, now) == history + [now]
    ensures Represents(Some(RecordAlertCreation(key, now)), history + [now])
  {
    if history != [] && history[|history| - 1] == now { RepeatIsRefused(limits, key, history, now); }
    RecordRepresents(key, history, now);
  }

  /** Unless attempts share a millisecond, or with a limit of one even then, the history holds every admission. */
  lemma {:induction false} AdmissionsAreTheHistory(limits: Limits, key: Option<SortedSet>, history: seq<int>, times: seq<int>)
    requires Represents(key, history) && InOrder(times) && (times != [] ==> NotBefore(history, times[0]))
    requires SomeLimitAtMostOne(limits) || StrictlyLater(history, times)
    ensures HistoryAfter(limits, key, history, times) == history + AdmittedTimes(limits, key, times)
    decreases |times|
  {
    if times != [] {
      var now := times[0];
      var (next, verdict) := Check(limits, key, now);
      if verdict.Admitted? {
        AdmittedIsNew(limits, key, history, now);
        AdmissionsAreTheHistory(limits, next, history + [now], times[1..]);
        Regroup(history, [now], AdmittedTimes(limits, next, times[1..]));
      } else {
        AdmissionsAreTheHistory(limits, next, history, times[1..]);
      }
    }
  }

  lemma EmptyWithinLimits(limits: Limits)
    ensures Represents(None, []) && WithinLimits(limits, [])
  {
  }

  /** Attempts at distinct milliseconds: no window holds more admissions than its limit. */
  lemma DistinctAttemptsStayWithinLimits(limits: Limits, times: seq<int>)
    requires Ascending(times)
    ensures WithinLimits(limits, AdmittedTimes(limits, None, times))
  {
    EmptyWithinLimits(limits);
    RunStaysWithinLimits(limits, None, [], times);
    AdmissionsAreTheHistory(limits, None, [], times);
    assert [] + AdmittedTimes(limits, None, times) == AdmittedTimes(limits, None, times);
  }

  // --- attempts that share a millisecond ----------------------------------------------------

  function Repeat(t: int, n: nat): (r: seq<int>)
    ensures |r| == n && forall i :: 0 <= i < n ==> r[i] == t
  {
    seq(n, i => t)
  }

  function OneAdmission(t: int): Option<SortedSet> {
    Some(RecordAlertCreation(None, t))
  }

  lemma OneRepresented(t: int)
    ensures Represents(OneAdmission(t), [t])
  {
    RecordRepresents(None, [], t);
    assert Extend([], t) == [t];
  }

  /** With every limit at least two, a repeat is admitted and leaves the set as it was. */
  lemma RepeatIsAdmitted(limits: Limits, t: int)
    requires !SomeLimitAtMostOne(limits)
    ensures Check(limits, OneAdmission(t), t) == (OneAdmission(t), Admitted)
  {
    var key, history := OneAdmission(t), [t];
    OneRepresented(t);
    assert forall span: int :: span >= 0 ==> CountInWindow(Stored(key, t), t, span) <= 1 by {
      forall span: int | span >= 0 ensures CountInWindow(Stored(key, t), t, span) <= 1 {
        StoredCountsLess(key, history, t, t - span);
        FromShorter(history, t - span);
      }
    }
    RecordRepresents(key, history, t);
    assert Extend(history, t) == history;
  }

  lemma {:induction false} RepeatsAreAdmitted(limits: Limits, t: int, n: nat)
    requires !SomeLimitAtMostOne(limits)
    ensures AdmittedTimes(limits, OneAdmission(t), Repeat(t, n)) == Repeat(t, n)
  {
    if n > 0 {
      RepeatIsAdmitted(limits, t);
      assert Repeat(t, n)[1..] == Repeat(t, n - 1);
      RepeatsAreAdmitted(limits, t, n - 1);
      assert [t] + Repeat(t, n - 1) == Repeat(t, n);
    }
  }

  lemma FirstIsAdmitted(limits: Limits, t: int)
    requires !SomeLimitAtMostOne(limits)
    ensures Check(limits, None, t) == (OneAdmission(t), Admitted)
  {
  }

  lemma {:induction false} RepeatsFillWindow(t: int, n: nat, span: int)
    requires span >= 0
    ensures |Between(Repeat(t, n), t, span)| == n
  {
    if n > 0 {
      assert Repeat(t, n)[1..] == Repeat(t, n - 1);
      RepeatsFillWindow(t, n - 1, span);
    }
  }

  /** Any number of attempts in one millisecond are then all admitted. */
  lemma AnyNumberInOneMillisecond(limits: Limits, t: int, n: nat)
    requires !SomeLimitAtMostOne(limits)
    ensures AdmittedTimes(limits, None, Repeat(t, n)) == Repeat(t, n)
  {
    if n > 0 {
      FirstIsAdmitted(limits, t);
      assert Repeat(t, n)[1..] == Repeat(t, n - 1);
      RepeatsAreAdmitted(limits, t, n - 1);
      assert [t] + Repeat(t, n - 1) == Repeat(t, n);
    }
  }

  /** Every run keeps its admissions within the limits, counted one by one, if and only if some limit is at most one. */
  lemma AdmissionsWithinLimitsExactly(limits: Limits)
    ensures (forall times :: InOrder(times) ==> WithinLimits(limits, AdmittedTimes(limits, None, times)))
       <==> SomeLimitAtMostOne(limits)
  {
    if SomeLimitAtMostOne(limits) {
      forall times | InOrder(times) ensures WithinLimits(limits, AdmittedTimes(limits, None, times)) {
        EmptyWithinLimits(limits);
        RunStaysWithinLimits(limits, None, [], times);
        AdmissionsAreTheHistory(limits, None, [], times);
        assert [] + AdmittedTimes(limits, None, times) == AdmittedTimes(limits, None, times);
      }
    } else {
      var n := limits.hourly + 1;
      var times := Repeat(0, n);
      AnyNumberInOneMillisecond(limits, 0, n);
      RepeatsFillWindow(0, n, Span(Hourly));
      assert InOrder(times) && |Between(times, 0, Span(Hourly))| > Cap(limits, Hourly);
      assert !WithinLimits(limits, AdmittedTimes(limits, None, times));
    }
  }

  /** With the default limits, six alerts in one millisecond pass the five per hour. */
  lemma SixInAnHourOfFive(t: int)
    ensures var limits := Limits(5, 20, 50);
      |Between(AdmittedTimes(limits, None, Repeat(t, 6)), t, Span(Hourly))| == 6 > Cap(limits, Hourly)
  {
    var limits := Limits(5, 20, 50);
    AnyNumberInOneMillisecond(limits, t, 6);
    RepeatsFillWindow(t, 6, Span(Hourly));
  }

  // --- the retry hint at one input -------------------------------------------------------------

  /** One alert an hour: asked a second after it, the hint is the end of the hour, where the retry is still refused. */
  lemma RetryAtTheHintIsRefused(t: int)
    ensures var limits, key, now := Limits(1, 20, 50), OneAdmission(t), t + 1000;
      WindowRefuses(limits, key, Hourly, now + 1000 * GetRetryAfter(Stored(key, now), now, Span(Hourly)))
  {
    var limits, key, now, history := Limits(1, 20, 50), OneAdmission(t), t + 1000, [t];
    OneRepresented(t);
    assert WithinLimits(limits, history) by {
      forall w: Window, at: int ensures |Between(history, at, Span(w))| <= Cap(limits, w) {
        BetweenWithinFrom(history, at, Span(w), at);
        FromShorter(history, at);
      }
    }
    FromAll(history, now - HOUR_MS);
    FromAll(history, t - WEEK_MS + 1);
    assert Counted(key, Hourly, now) == [t];
    RetryHintIsTight(limits, key, history, Hourly, now, now);
  }
}
