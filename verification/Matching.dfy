/**
 * Recipient matching (src/location/location.service.ts): six strategies feed
 * one list, which is deduplicated first per device and then per user.
 * The geospatial queries are given as the lists of rows they return.
 */
module Matching {
  import opened Common

  datatype Confidence = High | Medium | Low
  datatype Source = Manual | Gps | PostalCode | Ip

  datatype Match = Match(
    device: int, user: int, pushToken: Option<string>,
    confidence: Confidence, reason: Source, distanceKm: real, priority: int)

  /** A row of one of the queries. */
  datatype QueryRow = QueryRow(device: int, user: int, pushToken: Option<string>, distanceKm: real)

  /** A truthy token: present and not empty. */
  predicate HasToken(m: Match) {
    m.pushToken.Some? && m.pushToken.value != ""
  }

  // --- keep the best entry per key, in order of first appearance -----------------

  /** An insertion-ordered map, as the sequence of its values; the key is part of the value. */
  function IndexOfKey(entries: seq<Match>, key: Match -> int, k: int): (i: nat)
    ensures i <= |entries|
    ensures i < |entries| ==> key(entries[i]) == k
    ensures forall j :: 0 <= j < i ==> key(entries[j]) != k
  {
    if entries == [] || key(entries[0]) == k then 0 else 1 + IndexOfKey(entries[1..], key, k)
  }

  function Absorb(entries: seq<Match>, key: Match -> int, less: (Match, Match) -> bool, m: Match): seq<Match> {
    var i := IndexOfKey(entries, key, key(m));
    if i == |entries| then entries + [m]
    else if less(m, entries[i]) then entries[i := m]
    else entries
  }

  function KeepBest(items: seq<Match>, key: Match -> int, less: (Match, Match) -> bool): seq<Match> {
    if items == [] then []
    else Absorb(KeepBest(items[..|items| - 1], key, less), key, less, items[|items| - 1])
  }

  /** `items[i]` is the leftmost minimum among the items that share its key. */
  ghost predicate LeftmostBest(items: seq<Match>, key: Match -> int, less: (Match, Match) -> bool, i: int) {
    && 0 <= i < |items|
    && (forall j :: 0 <= j < |items| && key(items[j]) == key(items[i]) ==> !less(items[j], items[i]))
    && (forall j :: 0 <= j < i && key(items[j]) == key(items[i]) ==> less(items[i], items[j]))
  }

  /** Some position of `m` is the leftmost best of its key. */
  ghost predicate Chosen(items: seq<Match>, key: Match -> int, less: (Match, Match) -> bool, m: Match) {
    exists i :: LeftmostBest(items, key, less, i) && items[i] == m
  }

  ghost predicate HasKey(entries: seq<Match>, key: Match -> int, k: int) {
    exists i :: 0 <= i < |entries| && key(entries[i]) == k
  }

  ghost predicate AllChosen(items: seq<Match>, key: Match -> int, less: (Match, Match) -> bool, out: seq<Match>) {
    forall k :: 0 <= k < |out| ==> Chosen(items, key, less, out[k])
  }

  ghost predicate AllCovered(items: seq<Match>, key: Match -> int, out: seq<Match>) {
    forall i :: 0 <= i < |items| ==> HasKey(out, key, key(items[i]))
  }

  ghost predicate DistinctKeys(key: Match -> int, out: seq<Match>) {
    forall k, l :: 0 <= k < l < |out| ==> key(out[k]) != key(out[l])
  }

  /** Exactly one entry per key, each the leftmost best of its key. */
  ghost predicate BestPerKey(items: seq<Match>, key: Match -> int, less: (Match, Match) -> bool, out: seq<Match>) {
    AllChosen(items, key, less, out) && AllCovered(items, key, out) && DistinctKeys(key, out)
  }

  ghost predicate StrictWeak(less: (Match, Match) -> bool) {
    forall a, b, c :: less(a, b) ==> !less(b, a) && (less(a, c) || less(c, b))
  }

  lemma BestSurvives(items: seq<Match>, key: Match -> int, less: (Match, Match) -> bool, i: int, m: Match)
    requires LeftmostBest(items, key, less, i)
    requires key(m) != key(items[i]) || !less(m, items[i])
    ensures LeftmostBest(items + [m], key, less, i)
  {
  }

  lemma BestReplaced(items: seq<Match>, key: Match -> int, less: (Match, Match) -> bool, i: int, m: Match)
    requires StrictWeak(less) && LeftmostBest(items, key, less, i)
    requires key(m) == key(items[i]) && less(m, items[i])
    ensures LeftmostBest(items + [m], key, less, |items|)
  {
  }

  lemma BestAppears(items: seq<Match>, key: Match -> int, less: (Match, Match) -> bool, m: Match)
    requires StrictWeak(less) && forall j :: 0 <= j < |items| ==> key(items[j]) != key(m)
    ensures LeftmostBest(items + [m], key, less, |items|)
  {
    assert !less(m, m);
  }

  lemma AbsorbChooses(items: seq<Match>, key: Match -> int, less: (Match, Match) -> bool, out: seq<Match>, m: Match)
    requires StrictWeak(less) && AllChosen(items, key, less, out) && AllCovered(items, key, out) && DistinctKeys(key, out)
    ensures AllChosen(items + [m], key, less, Absorb(out, key, less, m))
  {
    var after := Absorb(out, key, less, m);
    var p := IndexOfKey(out, key, key(m));
    forall k | 0 <= k < |after| ensures Chosen(items + [m], key, less, after[k]) {
      if k == |out| {
        forall j | 0 <= j < |items| ensures key(items[j]) != key(m) { assert HasKey(out, key, key(items[j])); }
        BestAppears(items, key, less, m);
        assert (items + [m])[|items|] == after[k];
      } else {
        ChosenAfter(items, key, less, out[k], m);
        assert k != p ==> key(out[k]) != key(m);
      }
    }
  }

  lemma ChosenAfter(items: seq<Match>, key: Match -> int, less: (Match, Match) -> bool, best: Match, m: Match)
    requires StrictWeak(less) && Chosen(items, key, less, best)
    ensures Chosen(items + [m], key, less, if key(m) == key(best) && less(m, best) then m else best)
  {
    var i :| LeftmostBest(items, key, less, i) && items[i] == best;
    if key(m) == key(best) && less(m, best) {
      BestReplaced(items, key, less, i, m);
      assert (items + [m])[|items|] == m;
    } else {
      BestSurvives(items, key, less, i, m);
      assert (items + [m])[i] == best;
    }
  }

  lemma AbsorbCovers(items: seq<Match>, key: Match -> int, less: (Match, Match) -> bool, out: seq<Match>, m: Match)
    requires AllCovered(items, key, out)
    ensures AllCovered(items + [m], key, Absorb(out, key, less, m))
  {
    var after := Absorb(out, key, less, m);
    var p := IndexOfKey(out, key, key(m));
    assert key(after[p]) == key(m);
    forall i | 0 <= i < |items + [m]| ensures HasKey(after, key, key((items + [m])[i])) {
      if i < |items| {
        assert HasKey(out, key, key(items[i]));
        var k :| 0 <= k < |out| && key(out[k]) == key(items[i]);
        assert key(after[k]) == key(out[k]);
      }
    }
  }

  lemma AbsorbKeepsDistinct(key: Match -> int, less: (Match, Match) -> bool, out: seq<Match>, m: Match)
    requires DistinctKeys(key, out)
    ensures DistinctKeys(key, Absorb(out, key, less, m))
  {
  }

  /** One more item keeps the result the best per key. */
  lemma AbsorbKeepsBest(items: seq<Match>, key: Match -> int, less: (Match, Match) -> bool, out: seq<Match>, m: Match)
    requires StrictWeak(less) && BestPerKey(items, key, less, out)
    ensures BestPerKey(items + [m], key, less, Absorb(out, key, less, m))
  {
    AbsorbChooses(items, key, less, out, m);
    AbsorbCovers(items, key, less, out, m);
    AbsorbKeepsDistinct(key, less, out, m);
  }

  lemma {:induction false} KeepBestIsBest(items: seq<Match>, key: Match -> int, less: (Match, Match) -> bool)
    requires StrictWeak(less)
    ensures BestPerKey(items, key, less, KeepBest(items, key, less))
  {
    if items != [] {
      var n := |items| - 1;
      var head, best := items[..n], KeepBest(items[..n], key, less);
      assert items == head + [items[n]];
      assert KeepBest(items, key, less) == Absorb(best, key, less, items[n]);
      assert BestPerKey(head + [items[n]], key, less, Absorb(best, key, less, items[n])) by {
        KeepBestIsBest(head, key, less);
        AbsorbKeepsBest(head, key, less, best, items[n]);
      }
    }
  }

  /** Entries stand in the order in which their keys first appear. */
  ghost predicate FirstSeenOrder(items: seq<Match>, key: Match -> int, out: seq<Match>) {
    forall k, l :: 0 <= k < l < |out| ==> IndexOfKey(items, key, key(out[k])) < IndexOfKey(items, key, key(out[l]))
  }

  lemma FirstSeenAppend(items: seq<Match>, key: Match -> int, m: Match, k: int)
    ensures HasKey(items, key, k) ==> IndexOfKey(items + [m], key, k) == IndexOfKey(items, key, k) < |items|
    ensures !HasKey(items, key, k) && key(m) == k ==> IndexOfKey(items + [m], key, k) == |items|
  {
    var more := items + [m];
    var a, b := IndexOfKey(items, key, k), IndexOfKey(more, key, k);
    if HasKey(items, key, k) {
      assert a < |items| && key(more[a]) == k;
      assert forall j :: 0 <= j < |items| ==> more[j] == items[j];
    } else if key(m) == k {
      assert key(more[|items|]) == k;
    }
  }

  lemma AbsorbKeepsOrder(items: seq<Match>, key: Match -> int, less: (Match, Match) -> bool, out: seq<Match>, m: Match)
    requires FirstSeenOrder(items, key, out) && AllCovered(items, key, out)
    requires forall k :: 0 <= k < |out| ==> HasKey(items, key, key(out[k]))
    ensures FirstSeenOrder(items + [m], key, Absorb(out, key, less, m))
  {
    var after := Absorb(out, key, less, m);
    forall k, l | 0 <= k < l < |after|
      ensures IndexOfKey(items + [m], key, key(after[k])) < IndexOfKey(items + [m], key, key(after[l]))
    {
      assert key(after[k]) == key(out[k]);
      FirstSeenAppend(items, key, m, key(after[k]));
      FirstSeenAppend(items, key, m, key(after[l]));
      if l < |out| {
        assert key(after[l]) == key(out[l]);
      } else if HasKey(items, key, key(m)) {
        var i :| 0 <= i < |items| && key(items[i]) == key(m);
        assert HasKey(out, key, key(items[i]));
      }
    }
  }

  lemma {:induction false} KeepBestKeepsOrder(items: seq<Match>, key: Match -> int, less: (Match, Match) -> bool)
    requires StrictWeak(less)
    ensures FirstSeenOrder(items, key, KeepBest(items, key, less))
  {
    if items != [] {
      var n := |items| - 1;
      var head, best := items[..n], KeepBest(items[..n], key, less);
      assert items == head + [items[n]];
      assert KeepBest(items, key, less) == Absorb(best, key, less, items[n]);
      assert FirstSeenOrder(head + [items[n]], key, Absorb(best, key, less, items[n])) by {
        KeepBestKeepsOrder(head, key, less);
        KeepBestIsBest(head, key, less);
        forall k | 0 <= k < |best| ensures HasKey(head, key, key(best[k])) {
          assert Chosen(head, key, less, best[k]);
        }
        AbsorbKeepsOrder(head, key, less, best, items[n]);
      }
    }
  }

  // --- the two passes --------------------------------------------------------------

  function DeviceOf(m: Match): int { m.device }
  function UserOf(m: Match): int { m.user }

  predicate ByPriority(a: Match, b: Match) {
    a.priority < b.priority
  }

  /** Lexicographic: better priority, then a device that can be reached, then the closer one. */
  predicate ByReach(a: Match, b: Match) {
    || a.priority < b.priority
    || (a.priority == b.priority && HasToken(a) && !HasToken(b))
    || (a.priority == b.priority && HasToken(a) == HasToken(b) && a.distanceKm < b.distanceKm)
  }

  function DeviceWinners(matches: seq<Match>): seq<Match> {
    KeepBest(matches, DeviceOf, ByPriority)
  }

  function Deduplicate(matches: seq<Match>): seq<Match> {
    KeepBest(DeviceWinners(matches), UserOf, ByReach)
  }

  lemma ComparatorsAreStrictWeak()
    ensures StrictWeak(ByPriority) && StrictWeak(ByReach)
  {
  }

  /** `deduplicateMatches`. */
  method DeduplicateMatches(matches: seq<Match>) returns (result: seq<Match>)
    ensures result == Deduplicate(matches)
  {
    var deviceMap: seq<Match> := [];
    for i := 0 to |matches|
      invariant deviceMap == DeviceWinners(matches[..i])
    {
      var match_ := matches[i];
      var at := IndexOfKey(deviceMap, DeviceOf, match_.device);
      assert matches[..i + 1][..i] == matches[..i];
      if at == |deviceMap| {
        deviceMap := deviceMap + [match_];
      } else if match_.priority < deviceMap[at].priority {
        deviceMap := deviceMap[at := match_];
      }
    }
    assert matches[..|matches|] == matches;

    result := [];
    for i := 0 to |deviceMap|
      invariant result == KeepBest(deviceMap[..i], UserOf, ByReach)
    {
      var match_ := deviceMap[i];
      var at := IndexOfKey(result, UserOf, match_.user);
      assert deviceMap[..i + 1][..i] == deviceMap[..i];
      if at == |result| {
        result := result + [match_];
      } else {
        var existing := result[at];
        if match_.priority < existing.priority {
          result := result[at := match_];
        } else if match_.priority == existing.priority {
          if !HasToken(existing) && HasToken(match_) {
            result := result[at := match_];
          } else if HasToken(existing) == HasToken(match_) && match_.distanceKm < existing.distanceKm {
            result := result[at := match_];
          }
        }
      }
    }
    assert deviceMap[..|deviceMap|] == deviceMap;
  }

  // --- strategies --------------------------------------------------------------------

  datatype Strategy = SavedZones | AlertZones | FreshGps | StaleGps | PostalCodes | IpGeo

  function PriorityOf(s: Strategy): int {
    match s
    case SavedZones => 1
    case AlertZones => 1
    case FreshGps => 2
    case StaleGps => 3
    case PostalCodes => 4
    case IpGeo => 5
  }

  function ConfidenceOf(s: Strategy): Confidence {
    match s
    case SavedZones => High
    case AlertZones => High
    case FreshGps => High
    case StaleGps => Medium
    case PostalCodes => Medium
    case IpGeo => Low
  }

  function SourceOf(s: Strategy): Source {
    match s
    case SavedZones => Manual
    case AlertZones => Manual
    case FreshGps => Gps
    case StaleGps => Gps
    case PostalCodes => PostalCode
    case IpGeo => Ip
  }

  /** Postal codes say nothing about distance; the source writes 999. */
  function ToMatch(s: Strategy, row: QueryRow): Match {
    Match(row.device, row.user, row.pushToken, ConfidenceOf(s), SourceOf(s),
          if s == PostalCodes then 999.0 else row.distanceKm, PriorityOf(s))
  }

  function ToMatches(s: Strategy, rows: seq<QueryRow>): (r: seq<Match>)
    ensures |r| == |rows|
    ensures forall i :: 0 <= i < |rows| ==> r[i] == ToMatch(s, rows[i])
  {
    seq(|rows|, i requires 0 <= i < |rows| => ToMatch(s, rows[i]))
  }

  predicate Never(a: Match, b: Match) { false }

  /** `findAlertZoneMatches`: rows come best zone first, so the first row of a device wins. */
  method FindAlertZoneMatches(rows: seq<QueryRow>) returns (result: seq<Match>)
    ensures result == KeepBest(ToMatches(AlertZones, rows), DeviceOf, Never)
  {
    var all := ToMatches(AlertZones, rows);
    result := [];
    for i := 0 to |rows|
      invariant result == KeepBest(all[..i], DeviceOf, Never)
    {
      assert all[..i + 1][..i] == all[..i];
      var at := IndexOfKey(result, DeviceOf, rows[i].device);
      if at == |result| {
        result := result + [ToMatch(AlertZones, rows[i])];
      }
    }
    assert all[..|rows|] == all;
  }

  /** The query results for one alert, in the order the strategies run. */
  datatype Queries = Queries(
    saved: seq<QueryRow>, zones: seq<QueryRow>, freshGps: seq<QueryRow>, staleGps: seq<QueryRow>, postal: seq<QueryRow>, ip: seq<QueryRow>)

  function AllMatches(q: Queries): seq<Match> {
    ToMatches(SavedZones, q.saved)
    + KeepBest(ToMatches(AlertZones, q.zones), DeviceOf, Never)
    + ToMatches(FreshGps, q.freshGps) + ToMatches(StaleGps, q.staleGps)
    + ToMatches(PostalCodes, q.postal) + ToMatches(IpGeo, q.ip)
  }

  /** `findDevicesForAlert`; a zero coordinate counts as a missing one, as in the source. */
  method FindDevicesForAlert(active: bool, lat: Option<real>, lon: Option<real>, q: Queries) returns (result: seq<Match>)
    ensures result ==
      if active && lat.Some? && lon.Some? && lat.value != 0.0 && lon.value != 0.0
      then Deduplicate(AllMatches(q)) else []
    ensures result == [] || BestOfEachUser(q, result)
    ensures active && lat.Some? && lon.Some? && lat.value != 0.0 && lon.value != 0.0 ==> BestOfEachUser(q, result)
  {
    ResultIsBestOfEachUser(q);
    if !active { return []; }
    if !(lat.Some? && lat.value != 0.0) || !(lon.Some? && lon.value != 0.0) { return []; }
    var all := ToMatches(SavedZones, q.saved);
    var zones := FindAlertZoneMatches(q.zones);
    all := all + zones;
    all := all + ToMatches(FreshGps, q.freshGps);
    all := all + ToMatches(StaleGps, q.staleGps);
    all := all + ToMatches(PostalCodes, q.postal);
    all := all + ToMatches(IpGeo, q.ip);
    result := DeduplicateMatches(all);
  }

  // --- what deduplication returns ------------------------------------------------------

  /** Confidence is that of some strategy with this priority. */
  predicate Tiered(m: Match) {
    m.confidence == if m.priority <= 2 then High else if m.priority <= 4 then Medium else Low
  }

  function Rank(c: Confidence): int {
    match c
    case High => 0
    case Medium => 1
    case Low => 2
  }

  /** A device belongs to one user in every row that mentions it. */
  ghost predicate OneOwner(matches: seq<Match>) {
    forall i, j :: 0 <= i < |matches| && 0 <= j < |matches| && matches[i].device == matches[j].device
      ==> matches[i].user == matches[j].user
  }

  lemma WinnersAreBest(matches: seq<Match>)
    ensures BestPerKey(matches, DeviceOf, ByPriority, DeviceWinners(matches))
    ensures BestPerKey(DeviceWinners(matches), UserOf, ByReach, Deduplicate(matches))
  {
    ComparatorsAreStrictWeak();
    KeepBestIsBest(matches, DeviceOf, ByPriority);
    KeepBestIsBest(DeviceWinners(matches), UserOf, ByReach);
  }

  /** A chosen entry is an item, and no item of its key is better. */
  lemma ChosenBeats(items: seq<Match>, key: Match -> int, less: (Match, Match) -> bool, m: Match, j: nat)
    requires Chosen(items, key, less, m) && j < |items|
    ensures m in items && (key(items[j]) == key(m) ==> !less(items[j], m))
  {
  }

  /**
   * Each returned match is an input match, the leftmost best of its device, and
   * the leftmost lexicographic minimum among the device winners of its user.
   */
  lemma ResultIsLeftmostMinimum(matches: seq<Match>, k: nat)
    requires k < |Deduplicate(matches)|
    ensures Chosen(DeviceWinners(matches), UserOf, ByReach, Deduplicate(matches)[k])
    ensures Chosen(matches, DeviceOf, ByPriority, Deduplicate(matches)[k])
    ensures Deduplicate(matches)[k] in matches
  {
    var winners, m := DeviceWinners(matches), Deduplicate(matches)[k];
    WinnersAreBest(matches);
    assert Chosen(winners, UserOf, ByReach, m);
    var w :| LeftmostBest(winners, UserOf, ByReach, w) && winners[w] == m;
    assert Chosen(matches, DeviceOf, ByPriority, winners[w]);
  }

  lemma OneMatchPerUser(matches: seq<Match>, k: nat, l: nat)
    requires k < |Deduplicate(matches)| && l < |Deduplicate(matches)|
    requires Deduplicate(matches)[k].user == Deduplicate(matches)[l].user
    ensures k == l
  {
    WinnersAreBest(matches);
    var result := Deduplicate(matches);
    assert UserOf(result[k]) == UserOf(result[l]);
  }

  lemma WinnerOfDevice(matches: seq<Match>, i: nat) returns (w: nat)
    requires OneOwner(matches) && i < |matches|
    ensures w < |DeviceWinners(matches)|
    ensures DeviceWinners(matches)[w].user == matches[i].user
    ensures DeviceWinners(matches)[w].priority <= matches[i].priority
  {
    var winners := DeviceWinners(matches);
    WinnersAreBest(matches);
    assert HasKey(winners, DeviceOf, DeviceOf(matches[i]));
    w :| 0 <= w < |winners| && DeviceOf(winners[w]) == DeviceOf(matches[i]);
    ChosenBeats(matches, DeviceOf, ByPriority, winners[w], i);
    var source :| 0 <= source < |matches| && matches[source] == winners[w];
    assert !ByPriority(matches[i], winners[w]);
  }

  /** Every matched user is returned, with a priority no worse than any of their matches. */
  lemma UserIsReturned(matches: seq<Match>, i: nat) returns (k: nat)
    requires OneOwner(matches) && i < |matches|
    ensures k < |Deduplicate(matches)|
    ensures Deduplicate(matches)[k].user == matches[i].user
    ensures Deduplicate(matches)[k].priority <= matches[i].priority
  {
    var winners, result := DeviceWinners(matches), Deduplicate(matches);
    var w := WinnerOfDevice(matches, i);
    WinnersAreBest(matches);
    assert HasKey(result, UserOf, UserOf(winners[w]));
    k :| 0 <= k < |result| && UserOf(result[k]) == UserOf(winners[w]);
    ChosenBeats(winners, UserOf, ByReach, result[k], w);
    assert !ByReach(winners[w], result[k]);
  }

  lemma PriorityDecidesConfidence(a: Match, b: Match)
    requires Tiered(a) && Tiered(b) && a.priority <= b.priority
    ensures Rank(a.confidence) <= Rank(b.confidence)
  {
  }

  /** A returned match carries the highest confidence any strategy gave its user. */
  lemma HighestConfidence(matches: seq<Match>, k: nat, i: nat)
    requires OneOwner(matches) && forall j :: 0 <= j < |matches| ==> Tiered(matches[j])
    requires k < |Deduplicate(matches)| && i < |matches| && Deduplicate(matches)[k].user == matches[i].user
    ensures Rank(Deduplicate(matches)[k].confidence) <= Rank(matches[i].confidence)
  {
    var l := UserIsReturned(matches, i);
    OneMatchPerUser(matches, k, l);
    ResultIsLeftmostMinimum(matches, k);
    PriorityDecidesConfidence(Deduplicate(matches)[k], matches[i]);
  }

  /** What a match from each source carries. */
  predicate InTable(m: Match) {
    match m.reason
    case Manual => m.confidence == High && m.priority == 1
    case Gps => (m.confidence == High && m.priority == 2) || (m.confidence == Medium && m.priority == 3)
    case PostalCode => m.confidence == Medium && m.priority == 4 && m.distanceKm == 999.0
    case Ip => m.confidence == Low && m.priority == 5
  }

  /** All strategies produce matches of their tier, with the priority of their source. */
  lemma StrategiesAreTiered(q: Queries, m: Match)
    requires m in AllMatches(q)
    ensures Tiered(m) && InTable(m)
  {
    var zones := KeepBest(ToMatches(AlertZones, q.zones), DeviceOf, Never);
    if m in zones {
      KeptAreItems(ToMatches(AlertZones, q.zones), m);
      RowIsTiered(AlertZones, q.zones, m);
    } else if m in ToMatches(SavedZones, q.saved) { RowIsTiered(SavedZones, q.saved, m); }
    else if m in ToMatches(FreshGps, q.freshGps) { RowIsTiered(FreshGps, q.freshGps, m); }
    else if m in ToMatches(StaleGps, q.staleGps) { RowIsTiered(StaleGps, q.staleGps, m); }
    else if m in ToMatches(PostalCodes, q.postal) { RowIsTiered(PostalCodes, q.postal, m); }
    else { RowIsTiered(IpGeo, q.ip, m); }
  }

  lemma RowIsTiered(s: Strategy, rows: seq<QueryRow>, m: Match)
    requires m in ToMatches(s, rows)
    ensures Tiered(m) && InTable(m)
  {
    var i :| 0 <= i < |rows| && ToMatches(s, rows)[i] == m;
  }

  lemma KeptAreItems(items: seq<Match>, m: Match)
    requires m in KeepBest(items, DeviceOf, Never)
    ensures m in items
  {
    var kept := KeepBest(items, DeviceOf, Never);
    KeepBestIsBest(items, DeviceOf, Never);
    var k :| 0 <= k < |kept| && kept[k] == m;
    assert Chosen(items, DeviceOf, Never, kept[k]);
  }

  // --- the match of each device, read off the query results --------------------------

  ghost predicate NoRow(rows: seq<QueryRow>, device: int) {
    forall i :: 0 <= i < |rows| ==> rows[i].device != device
  }

  /** The match is the first row of its device, with the given tier; the distance may be fixed. */
  ghost predicate FirstRow(
    rows: seq<QueryRow>, m: Match, confidence: Confidence, reason: Source, priority: int, distance: Option<real>)
  {
    exists i :: 0 <= i < |rows|
      && rows[i].device == m.device && (forall j :: 0 <= j < i ==> rows[j].device != m.device)
      && m == Match(rows[i].device, rows[i].user, rows[i].pushToken, confidence, reason,
                    if distance.Some? then distance.value else rows[i].distanceKm, priority)
  }

  /**
   * The match a device ends up with: the first row of the first query that has one, in the
   * order saved zones, alert zones, fresh positions, stale positions, postal codes, addresses.
   */
  ghost predicate DeviceMatch(q: Queries, m: Match) {
    if !NoRow(q.saved, m.device) then FirstRow(q.saved, m, High, Manual, 1, None)
    else if !NoRow(q.zones, m.device) then FirstRow(q.zones, m, High, Manual, 1, None)
    else if !NoRow(q.freshGps, m.device) then FirstRow(q.freshGps, m, High, Gps, 2, None)
    else if !NoRow(q.staleGps, m.device) then FirstRow(q.staleGps, m, Medium, Gps, 3, None)
    else if !NoRow(q.postal, m.device) then FirstRow(q.postal, m, Medium, PostalCode, 4, Some(999.0))
    else FirstRow(q.ip, m, Low, Ip, 5, None)
  }

  /** The first item for a device. */
  function FirstOf(items: seq<Match>, device: int): Option<Match> {
    var i := IndexOfKey(items, DeviceOf, device);
    if i < |items| then Some(items[i]) else None
  }

  lemma FirstOfConcat(a: seq<Match>, b: seq<Match>, device: int)
    ensures FirstOf(a + b, device) == if FirstOf(a, device).Some? then FirstOf(a, device) else FirstOf(b, device)
  {
    var i, j, k := IndexOfKey(a, DeviceOf, device), IndexOfKey(b, DeviceOf, device), IndexOfKey(a + b, DeviceOf, device);
    if i < |a| {
      assert DeviceOf((a + b)[i]) == device;
    } else if j < |b| {
      assert DeviceOf((a + b)[|a| + j]) == device;
      assert k >= |a| ==> DeviceOf((a + b)[k]) == DeviceOf(b[k - |a|]);
    }
  }

  lemma FirstOfNone(s: Strategy, rows: seq<QueryRow>, device: int)
    ensures FirstOf(ToMatches(s, rows), device).None? <==> NoRow(rows, device)
  {
    var items := ToMatches(s, rows);
    assert forall j :: 0 <= j < |rows| ==> DeviceOf(items[j]) == rows[j].device;
  }

  lemma FirstOfSome(s: Strategy, rows: seq<QueryRow>, device: int)
    requires FirstOf(ToMatches(s, rows), device).Some?
    ensures var first := FirstOf(ToMatches(s, rows), device).value;
      && first.device == device
      && FirstRow(rows, first, ConfidenceOf(s), SourceOf(s), PriorityOf(s), if s == PostalCodes then Some(999.0) else None)
  {
    var items := ToMatches(s, rows);
    var i := IndexOfKey(items, DeviceOf, device);
    assert forall j :: 0 <= j < |rows| ==> DeviceOf(items[j]) == rows[j].device;
    assert rows[i].device == device;
  }

  /** The list of a strategy that keeps the first row of a device has the same first items. */
  lemma {:induction false} FirstOfKept(items: seq<Match>, device: int)
    ensures FirstOf(KeepBest(items, DeviceOf, Never), device) == FirstOf(items, device)
  {
    if items != [] {
      var n := |items| - 1;
      var rest, last := KeepBest(items[..n], DeviceOf, Never), items[n];
      FirstOfKept(items[..n], device);
      FirstOfKept(items[..n], last.device);
      FirstOfConcat(items[..n], [last], device);
      FirstOfConcat(rest, [last], device);
      assert items == items[..n] + [last];
    }
  }

  ghost predicate Ascends(items: seq<Match>) {
    forall i, j :: 0 <= i < j < |items| ==> items[i].priority <= items[j].priority
  }

  ghost predicate AllAt(items: seq<Match>, priority: int) {
    forall i :: 0 <= i < |items| ==> items[i].priority == priority
  }

  lemma AscendsWith(a: seq<Match>, b: seq<Match>, low: int, high: int)
    requires Ascends(a) && (forall i :: 0 <= i < |a| ==> a[i].priority <= low) && AllAt(b, high) && low <= high
    ensures Ascends(a + b) && forall i :: 0 <= i < |a + b| ==> (a + b)[i].priority <= high
  {
  }

  /** The strategies run in the order of their priorities. */
  lemma StrategiesAscend(q: Queries)
    ensures Ascends(AllMatches(q))
  {
    var zones := KeepBest(ToMatches(AlertZones, q.zones), DeviceOf, Never);
    KeepBestIsBest(ToMatches(AlertZones, q.zones), DeviceOf, Never);
    forall k | 0 <= k < |zones| ensures zones[k].priority == 1 {
      assert Chosen(ToMatches(AlertZones, q.zones), DeviceOf, Never, zones[k]);
    }
    var first := ToMatches(SavedZones, q.saved);
    AscendsWith(first, zones, 1, 1);
    AscendsWith(first + zones, ToMatches(FreshGps, q.freshGps), 1, 2);
    var gps := first + zones + ToMatches(FreshGps, q.freshGps);
    AscendsWith(gps, ToMatches(StaleGps, q.staleGps), 2, 3);
    AscendsWith(gps + ToMatches(StaleGps, q.staleGps), ToMatches(PostalCodes, q.postal), 3, 4);
    AscendsWith(gps + ToMatches(StaleGps, q.staleGps) + ToMatches(PostalCodes, q.postal), ToMatches(IpGeo, q.ip), 4, 5);
  }

  /** With ascending priorities the winner of a device is simply its first item. */
  lemma WinnersComeFirst(items: seq<Match>, m: Match)
    requires Ascends(items)
    ensures m in DeviceWinners(items) <==> FirstOf(items, m.device) == Some(m)
  {
    var winners := DeviceWinners(items);
    WinnersAreBest(items);
    if m in winners {
      var k :| 0 <= k < |winners| && winners[k] == m;
      assert Chosen(items, DeviceOf, ByPriority, winners[k]);
      WinnerIsFirst(items, m);
    }
    if FirstOf(items, m.device) == Some(m) {
      var i := IndexOfKey(items, DeviceOf, m.device);
      assert HasKey(winners, DeviceOf, DeviceOf(items[i]));
      var k :| 0 <= k < |winners| && DeviceOf(winners[k]) == m.device;
      assert Chosen(items, DeviceOf, ByPriority, winners[k]);
      WinnerIsFirst(items, winners[k]);
      assert winners[k] == m;
    }
  }

  lemma WinnerIsFirst(items: seq<Match>, m: Match)
    requires Ascends(items) && Chosen(items, DeviceOf, ByPriority, m)
    ensures FirstOf(items, m.device) == Some(m)
  {
    var i :| LeftmostBest(items, DeviceOf, ByPriority, i) && items[i] == m;
    forall j | 0 <= j < i ensures DeviceOf(items[j]) != m.device {
      assert items[j].priority <= items[i].priority;
    }
    assert DeviceOf(items[i]) == m.device;
  }

  /** Ordered choice. */
  function OrElse(a: Option<Match>, b: Option<Match>): Option<Match> {
    if a.Some? then a else b
  }

  /** The first item of a device is that of the first strategy that has one. */
  lemma FirstInOrder(q: Queries, device: int)
    ensures FirstOf(AllMatches(q), device) ==
      OrElse(OrElse(OrElse(OrElse(OrElse(
        FirstOf(ToMatches(SavedZones, q.saved), device), FirstOf(ToMatches(AlertZones, q.zones), device)),
        FirstOf(ToMatches(FreshGps, q.freshGps), device)), FirstOf(ToMatches(StaleGps, q.staleGps), device)),
        FirstOf(ToMatches(PostalCodes, q.postal), device)), FirstOf(ToMatches(IpGeo, q.ip), device))
  {
    var s1, s2 := ToMatches(SavedZones, q.saved), KeepBest(ToMatches(AlertZones, q.zones), DeviceOf, Never);
    var s3, s4 := ToMatches(FreshGps, q.freshGps), ToMatches(StaleGps, q.staleGps);
    var s5, s6 := ToMatches(PostalCodes, q.postal), ToMatches(IpGeo, q.ip);
    FirstOfConcat(s1 + s2 + s3 + s4 + s5, s6, device);
    FirstOfConcat(s1 + s2 + s3 + s4, s5, device);
    FirstOfConcat(s1 + s2 + s3, s4, device);
    FirstOfConcat(s1 + s2, s3, device);
    FirstOfConcat(s1, s2, device);
    FirstOfKept(ToMatches(AlertZones, q.zones), device);
  }

  lemma FirstOfAll(q: Queries, device: int)
    ensures var first := FirstOf(AllMatches(q), device);
      && (first.Some? ==> first.value.device == device && DeviceMatch(q, first.value))
      && (first.None? ==> forall m: Match :: m.device == device ==> !DeviceMatch(q, m))
  {
    FirstInOrder(q, device);
    FirstOfNone(SavedZones, q.saved, device);
    FirstOfNone(AlertZones, q.zones, device);
    FirstOfNone(FreshGps, q.freshGps, device);
    FirstOfNone(StaleGps, q.staleGps, device);
    FirstOfNone(PostalCodes, q.postal, device);
    FirstOfNone(IpGeo, q.ip, device);
    if !NoRow(q.saved, device) {
      FirstOfSome(SavedZones, q.saved, device);
    } else if !NoRow(q.zones, device) {
      FirstOfSome(AlertZones, q.zones, device);
    } else if !NoRow(q.freshGps, device) {
      FirstOfSome(FreshGps, q.freshGps, device);
    } else if !NoRow(q.staleGps, device) {
      FirstOfSome(StaleGps, q.staleGps, device);
    } else if !NoRow(q.postal, device) {
      FirstOfSome(PostalCodes, q.postal, device);
    } else if !NoRow(q.ip, device) {
      FirstOfSome(IpGeo, q.ip, device);
    }
  }

  lemma FirstRowIsUnique(
    rows: seq<QueryRow>, a: Match, b: Match, confidence: Confidence, reason: Source, priority: int, distance: Option<real>)
    requires FirstRow(rows, a, confidence, reason, priority, distance) && FirstRow(rows, b, confidence, reason, priority, distance)
    requires a.device == b.device
    ensures a == b
  {
    var i :| 0 <= i < |rows| && rows[i].device == a.device && (forall h :: 0 <= h < i ==> rows[h].device != a.device)
      && a == Match(rows[i].device, rows[i].user, rows[i].pushToken, confidence, reason,
                    if distance.Some? then distance.value else rows[i].distanceKm, priority);
    var j :| 0 <= j < |rows| && rows[j].device == b.device && (forall h :: 0 <= h < j ==> rows[h].device != b.device)
      && b == Match(rows[j].device, rows[j].user, rows[j].pushToken, confidence, reason,
                    if distance.Some? then distance.value else rows[j].distanceKm, priority);
    assert i == j;
  }

  lemma DeviceMatchIsUnique(q: Queries, a: Match, b: Match)
    requires DeviceMatch(q, a) && DeviceMatch(q, b) && a.device == b.device
    ensures a == b
  {
    var d := a.device;
    if !NoRow(q.saved, d) { FirstRowIsUnique(q.saved, a, b, High, Manual, 1, None); }
    else if !NoRow(q.zones, d) { FirstRowIsUnique(q.zones, a, b, High, Manual, 1, None); }
    else if !NoRow(q.freshGps, d) { FirstRowIsUnique(q.freshGps, a, b, High, Gps, 2, None); }
    else if !NoRow(q.staleGps, d) { FirstRowIsUnique(q.staleGps, a, b, Medium, Gps, 3, None); }
    else if !NoRow(q.postal, d) { FirstRowIsUnique(q.postal, a, b, Medium, PostalCode, 4, Some(999.0)); }
    else { FirstRowIsUnique(q.ip, a, b, Low, Ip, 5, None); }
  }

  /** The winner of a device is the first row of the first strategy that found it. */
  lemma WinnersExactly(q: Queries, m: Match)
    ensures m in DeviceWinners(AllMatches(q)) <==> DeviceMatch(q, m)
  {
    StrategiesAscend(q);
    WinnersComeFirst(AllMatches(q), m);
    FirstOfAll(q, m.device);
    var first := FirstOf(AllMatches(q), m.device);
    if DeviceMatch(q, m) && first.Some? { DeviceMatchIsUnique(q, m, first.value); }
  }

  /** A user is better served by no other device: priority, then a usable token, then distance. */
  ghost predicate NoBetter(best: Match, other: Match) {
    var canReach := best.pushToken != None && best.pushToken != Some("");
    var otherCan := other.pushToken != None && other.pushToken != Some("");
    && best.priority <= other.priority
    && (best.priority == other.priority && otherCan ==> canReach)
    && (best.priority == other.priority && otherCan == canReach ==> best.distanceKm <= other.distanceKm)
  }

  /** Exactly one match for each user some query found: the best of their devices' matches. */
  ghost predicate BestOfEachUser(q: Queries, result: seq<Match>) {
    && (forall k :: 0 <= k < |result| ==> DeviceMatch(q, result[k]))
    && (forall k, m :: 0 <= k < |result| && DeviceMatch(q, m) && m.user == result[k].user ==> NoBetter(result[k], m))
    && (forall m :: DeviceMatch(q, m) ==> exists k :: 0 <= k < |result| && result[k].user == m.user)
    && (forall k, l :: 0 <= k < l < |result| ==> result[k].user != result[l].user)
  }

  lemma ResultIsDeviceMatch(q: Queries, k: nat)
    requires k < |Deduplicate(AllMatches(q))|
    ensures DeviceMatch(q, Deduplicate(AllMatches(q))[k])
  {
    var winners, result := DeviceWinners(AllMatches(q)), Deduplicate(AllMatches(q));
    WinnersAreBest(AllMatches(q));
    assert Chosen(winners, UserOf, ByReach, result[k]);
    WinnersExactly(q, result[k]);
  }

  lemma NotBeatenIsNoBetter(best: Match, other: Match)
    requires !ByReach(other, best)
    ensures NoBetter(best, other)
  {
  }

  lemma ResultBeats(q: Queries, k: nat, m: Match)
    requires k < |Deduplicate(AllMatches(q))| && DeviceMatch(q, m) && m.user == Deduplicate(AllMatches(q))[k].user
    ensures NoBetter(Deduplicate(AllMatches(q))[k], m)
  {
    var winners, result := DeviceWinners(AllMatches(q)), Deduplicate(AllMatches(q));
    WinnersAreBest(AllMatches(q));
    WinnersExactly(q, m);
    var w :| 0 <= w < |winners| && winners[w] == m;
    assert Chosen(winners, UserOf, ByReach, result[k]);
    ChosenBeats(winners, UserOf, ByReach, result[k], w);
    NotBeatenIsNoBetter(result[k], m);
  }

  lemma DeviceMatchIsServed(q: Queries, m: Match) returns (k: nat)
    requires DeviceMatch(q, m)
    ensures k < |Deduplicate(AllMatches(q))| && Deduplicate(AllMatches(q))[k].user == m.user
  {
    var winners, result := DeviceWinners(AllMatches(q)), Deduplicate(AllMatches(q));
    WinnersAreBest(AllMatches(q));
    WinnersExactly(q, m);
    var w :| 0 <= w < |winners| && winners[w] == m;
    assert HasKey(result, UserOf, UserOf(winners[w]));
    k :| 0 <= k < |result| && UserOf(result[k]) == UserOf(winners[w]);
  }

  lemma ResultIsBestOfEachUser(q: Queries)
    ensures BestOfEachUser(q, Deduplicate(AllMatches(q)))
  {
    var result := Deduplicate(AllMatches(q));
    forall k | 0 <= k < |result| ensures DeviceMatch(q, result[k]) { ResultIsDeviceMatch(q, k); }
    forall k, m | 0 <= k < |result| && DeviceMatch(q, m) && m.user == result[k].user ensures NoBetter(result[k], m) {
      ResultBeats(q, k, m);
    }
    forall m | DeviceMatch(q, m) ensures exists k :: 0 <= k < |result| && result[k].user == m.user {
      var k := DeviceMatchIsServed(q, m);
    }
    forall k, l | 0 <= k < l < |result| ensures result[k].user != result[l].user {
      if result[k].user == result[l].user { OneMatchPerUser(AllMatches(q), k, l); }
    }
  }

  // --- the waves -------------------------------------------------------------------------

  /** One wave's share of a snapshot: its own confidence tier, without the creator. */
  function WaveMatches(matches: seq<Match>, wave: Confidence, creator: int): (r: seq<Match>)
    ensures forall m :: m in r <==> m in matches && m.confidence == wave && m.user != creator
  {
    if matches == [] then []
    else
      var rest := WaveMatches(matches[1..], wave, creator);
      if matches[0].confidence == wave && matches[0].user != creator then [matches[0]] + rest else rest
  }

  /** For one snapshot, every matched user but the creator is in exactly one wave. */
  lemma WavesPartitionUsers(matches: seq<Match>, creator: int, i: nat)
    requires OneOwner(matches) && i < |matches| && matches[i].user != creator
    ensures exists wave: Confidence, m: Match ::
      && m in WaveMatches(Deduplicate(matches), wave, creator) && m.user == matches[i].user
      && forall other: Confidence, n: Match ::
           n in WaveMatches(Deduplicate(matches), other, creator) && n.user == matches[i].user ==> other == wave && n == m
  {
    var result := Deduplicate(matches);
    var k := UserIsReturned(matches, i);
    var m := result[k];
    assert m in WaveMatches(result, m.confidence, creator);
    forall other: Confidence, n: Match
      | n in WaveMatches(result, other, creator) && n.user == matches[i].user
      ensures other == m.confidence && n == m
    {
      var l :| 0 <= l < |result| && result[l] == n;
      OneMatchPerUser(matches, k, l);
    }
  }

  /** No wave reaches the creator or a user the strategies did not match. */
  lemma WavesReachOnlyMatched(matches: seq<Match>, wave: Confidence, creator: int, m: Match)
    requires m in WaveMatches(Deduplicate(matches), wave, creator)
    ensures m.user != creator && m in matches && m.confidence == wave
  {
    var result := Deduplicate(matches);
    var k :| 0 <= k < |result| && result[k] == m;
    ResultIsLeftmostMinimum(matches, k);
  }
}
