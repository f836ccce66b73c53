/**
 * Ids of two kinds. The interfaces of src/location/location.service.ts declare string ids, and
 * the alert-zone strategy converts its ids to strings; the other strategies pass on what their
 * raw queries answer. Where that is a number, the maps and the creator filter compare values of
 * different kinds, which are never equal. `text` says which matches carry strings.
 */
module MatchingIds {
  import opened Common
  import opened Matching

  type Kind = Match -> bool

  /** A key that separates the two kinds. */
  function Keyed(id: int, isText: bool): int {
    2 * id + if isText then 1 else 0
  }

  function DeviceKey(text: Kind): Match -> int {
    (m: Match) => Keyed(m.device, text(m))
  }

  function UserKey(text: Kind): Match -> int {
    (m: Match) => Keyed(m.user, text(m))
  }

  function Winners(matches: seq<Match>, text: Kind): seq<Match> {
    KeepBest(matches, DeviceKey(text), ByPriority)
  }

  /** `deduplicateMatches` on ids of two kinds. */
  function DeduplicateKinds(matches: seq<Match>, text: Kind): seq<Match> {
    KeepBest(Winners(matches, text), UserKey(text), ByReach)
  }

  lemma BothPasses(matches: seq<Match>, text: Kind)
    ensures BestPerKey(matches, DeviceKey(text), ByPriority, Winners(matches, text))
    ensures BestPerKey(Winners(matches, text), UserKey(text), ByReach, DeduplicateKinds(matches, text))
  {
    ComparatorsAreStrictWeak();
    KeepBestIsBest(matches, DeviceKey(text), ByPriority);
    KeepBestIsBest(Winners(matches, text), UserKey(text), ByReach);
  }

  lemma ResultIsInput(matches: seq<Match>, text: Kind, k: nat)
    requires k < |DeduplicateKinds(matches, text)|
    ensures DeduplicateKinds(matches, text)[k] in matches
  {
    var winners, result := Winners(matches, text), DeduplicateKinds(matches, text);
    BothPasses(matches, text);
    assert Chosen(winners, UserKey(text), ByReach, result[k]);
    var w :| LeftmostBest(winners, UserKey(text), ByReach, w) && winners[w] == result[k];
    assert Chosen(matches, DeviceKey(text), ByPriority, winners[w]);
  }

  lemma SameKeys(text: Kind, a: Match, b: Match)
    ensures DeviceKey(text)(a) == DeviceKey(text)(b) <==> a.device == b.device && text(a) == text(b)
    ensures UserKey(text)(a) == UserKey(text)(b) <==> a.user == b.user && text(a) == text(b)
  {
    KeyedApart(a.device, text(a), b.device, text(b));
    KeyedApart(a.user, text(a), b.user, text(b));
  }

  lemma KeyedApart(a: int, p: bool, b: int, q: bool)
    ensures Keyed(a, p) == Keyed(b, q) <==> a == b && p == q
  {
    assert Keyed(a, p) % 2 == (if p then 1 else 0) && Keyed(b, q) % 2 == (if q then 1 else 0);
  }

  lemma WinnerOfKind(matches: seq<Match>, text: Kind, i: nat) returns (w: nat)
    requires OneOwner(matches) && i < |matches|
    ensures w < |Winners(matches, text)|
    ensures Winners(matches, text)[w].user == matches[i].user && text(Winners(matches, text)[w]) == text(matches[i])
  {
    var winners, key := Winners(matches, text), DeviceKey(text);
    BothPasses(matches, text);
    assert HasKey(winners, key, key(matches[i]));
    w :| 0 <= w < |winners| && key(winners[w]) == key(matches[i]);
    SameKeys(text, winners[w], matches[i]);
    assert Chosen(matches, key, ByPriority, winners[w]);
    ChosenBeats(matches, key, ByPriority, winners[w], i);
    var source :| 0 <= source < |matches| && matches[source] == winners[w];
  }

  /** Every kind in which a user is matched is returned. */
  lemma KindIsReturned(matches: seq<Match>, text: Kind, i: nat) returns (k: nat)
    requires OneOwner(matches) && i < |matches|
    ensures k < |DeduplicateKinds(matches, text)|
    ensures DeduplicateKinds(matches, text)[k].user == matches[i].user
    ensures text(DeduplicateKinds(matches, text)[k]) == text(matches[i])
  {
    var winners, result, key := Winners(matches, text), DeduplicateKinds(matches, text), UserKey(text);
    var w := WinnerOfKind(matches, text, i);
    BothPasses(matches, text);
    assert HasKey(result, key, key(winners[w]));
    k :| 0 <= k < |result| && key(result[k]) == key(winners[w]);
    SameKeys(text, result[k], winners[w]);
  }

  ghost predicate ReturnedTwice(result: seq<Match>) {
    exists k, l :: 0 <= k < l < |result| && result[k].user == result[l].user
  }

  ghost predicate MatchedInBothKinds(matches: seq<Match>, text: Kind) {
    exists i, j :: 0 <= i < |matches| && 0 <= j < |matches|
      && matches[i].user == matches[j].user && text(matches[i]) && !text(matches[j])
  }

  lemma BothKindsReturnedTwice(matches: seq<Match>, text: Kind, i: nat, j: nat)
    requires OneOwner(matches) && i < |matches| && j < |matches|
    requires matches[i].user == matches[j].user && text(matches[i]) && !text(matches[j])
    ensures ReturnedTwice(DeduplicateKinds(matches, text))
  {
    var result := DeduplicateKinds(matches, text);
    var k := KindIsReturned(matches, text, i);
    var l := KindIsReturned(matches, text, j);
    assert k != l && result[k].user == result[l].user;
    if k < l { assert ReturnedTwice(result); } else { assert ReturnedTwice(result); }
  }

  lemma ReturnedInBothKinds(matches: seq<Match>, text: Kind, k: nat, l: nat)
    requires k < l < |DeduplicateKinds(matches, text)|
    requires DeduplicateKinds(matches, text)[k].user == DeduplicateKinds(matches, text)[l].user
    ensures MatchedInBothKinds(matches, text)
  {
    var result, key := DeduplicateKinds(matches, text), UserKey(text);
    BothPasses(matches, text);
    assert key(result[k]) != key(result[l]);
    SameKeys(text, result[k], result[l]);
    ResultIsInput(matches, text, k);
    ResultIsInput(matches, text, l);
    var i :| 0 <= i < |matches| && matches[i] == result[k];
    var j :| 0 <= j < |matches| && matches[j] == result[l];
    if text(matches[i]) {
      assert !text(matches[j]);
    } else {
      assert text(matches[j]);
    }
  }

  /** Some user is returned twice if and only if some user is matched with ids of both kinds. */
  lemma ReturnedTwiceExactly(matches: seq<Match>, text: Kind)
    requires OneOwner(matches)
    ensures ReturnedTwice(DeduplicateKinds(matches, text)) <==> MatchedInBothKinds(matches, text)
  {
    var result := DeduplicateKinds(matches, text);
    if MatchedInBothKinds(matches, text) {
      var i: nat, j: nat :| i < |matches| && j < |matches|
        && matches[i].user == matches[j].user && text(matches[i]) && !text(matches[j]);
      BothKindsReturnedTwice(matches, text, i, j);
    }
    if ReturnedTwice(result) {
      var k: nat, l: nat :| k < l < |result| && result[k].user == result[l].user;
      ReturnedInBothKinds(matches, text, k, l);
    }
  }

  /** The creator's id is a string, so the filter of a wave drops only matches that carry one. */
  predicate PassesFilter(m: Match, text: Kind, creator: int) {
    !(text(m) && m.user == creator)
  }

  /** The creator gets through to the waves if and only if they are matched with a number. */
  lemma CreatorPassesExactly(matches: seq<Match>, text: Kind, creator: int)
    requires OneOwner(matches)
    ensures (exists m :: m in DeduplicateKinds(matches, text) && m.user == creator && PassesFilter(m, text, creator))
       <==> exists m :: m in matches && m.user == creator && !text(m)
  {
    var result := DeduplicateKinds(matches, text);
    if m :| m in matches && m.user == creator && !text(m) {
      var i :| 0 <= i < |matches| && matches[i] == m;
      var k := KindIsReturned(matches, text, i);
      assert result[k] in result;
    }
    if m :| m in result && m.user == creator && PassesFilter(m, text, creator) {
      var k :| 0 <= k < |result| && result[k] == m;
      ResultIsInput(matches, text, k);
    }
  }

  /** With one kind, as declared, this is the deduplication of `Matching`. */
  lemma {:induction false} OneKindIsPlain(items: seq<Match>, key: Match -> int, other: Match -> int, less: (Match, Match) -> bool)
    requires forall a, b :: key(a) == key(b) <==> other(a) == other(b)
    ensures KeepBest(items, key, less) == KeepBest(items, other, less)
  {
    if items != [] {
      var n := |items| - 1;
      OneKindIsPlain(items[..n], key, other, less);
      SameIndex(KeepBest(items[..n], key, less), key, other, items[n]);
    }
  }

  lemma {:induction false} SameIndex(entries: seq<Match>, key: Match -> int, other: Match -> int, m: Match)
    requires forall a, b :: key(a) == key(b) <==> other(a) == other(b)
    ensures IndexOfKey(entries, key, key(m)) == IndexOfKey(entries, other, other(m))
  {
    if entries != [] { SameIndex(entries[1..], key, other, m); }
  }

  lemma DeclaredIdsAgree(matches: seq<Match>)
    ensures DeduplicateKinds(matches, (m: Match) => true) == Deduplicate(matches)
  {
    var text: Kind := (m: Match) => true;
    forall a: Match, b: Match
      ensures (DeviceKey(text)(a) == DeviceKey(text)(b) <==> DeviceOf(a) == DeviceOf(b))
           && (UserKey(text)(a) == UserKey(text)(b) <==> UserOf(a) == UserOf(b))
    {
      SameKeys(text, a, b);
    }
    OneKindIsPlain(matches, DeviceKey(text), DeviceOf, ByPriority);
    OneKindIsPlain(DeviceWinners(matches), UserKey(text), UserOf, ByReach);
  }
}
