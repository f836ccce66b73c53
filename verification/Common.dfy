/** What several components share: optional values, spans of time, device rows and counting. */
module Common {

  /** The nullable columns and optional parameters of the source. */
  datatype Option<+T> = None | Some(value: T)

  const HOUR_MS := 3_600_000
  const DAY_MS := 86_400_000
  const WEEK_MS := 604_800_000

  /** A device with a push token and push enabled, as the device queries return it. */
  datatype Device = Device(id: int, user: int)

  function Times<T(==)>(s: seq<T>, x: T): nat {
    if s == [] then 0 else (if s[0] == x then 1 else 0) + Times(s[1..], x)
  }

  lemma {:induction false} TimesConcat<T>(a: seq<T>, b: seq<T>, x: T)
    ensures Times(a + b, x) == Times(a, x) + Times(b, x)
  {
    if a == [] {
      assert a + b == b;
    } else {
      assert (a + b)[1..] == a[1..] + b;
      TimesConcat(a[1..], b, x);
    }
  }

  lemma TimesOne<T>(y: T, x: T)
    ensures Times([y], x) == if y == x then 1 else 0
  {
    assert [y][1..] == [];
  }

  /** Counting agrees with multisets. */
  lemma {:induction false} TimesIsMultiplicity<T>(s: seq<T>, x: T)
    ensures Times(s, x) == multiset(s)[x]
  {
    if s != [] {
      assert s == [s[0]] + s[1..];
      TimesIsMultiplicity(s[1..], x);
    }
  }

  ghost predicate NoRepeats<T>(s: seq<T>) {
    forall i, j :: 0 <= i < j < |s| ==> s[i] != s[j]
  }

  lemma {:induction false} TimesNoRepeats<T>(s: seq<T>, x: T)
    requires NoRepeats(s)
    ensures Times(s, x) == if x in s then 1 else 0
  {
    if s != [] {
      TimesNoRepeats(s[1..], x);
      assert x in s <==> x == s[0] || x in s[1..];
    }
  }

  lemma Regroup<T>(a: seq<T>, b: seq<T>, c: seq<T>)
    ensures a + b + c == a + (b + c)
  {
  }

  /** Operation and reader ids never run out. */
  lemma UnusedId(used: set<nat>)
    ensures exists id: nat :: id !in used
  {
    var bound := Beyond(used);
    assert bound !in used;
  }

  lemma Beyond(used: set<nat>) returns (bound: nat)
    ensures forall id: nat :: id in used ==> id < bound
    decreases used
  {
    if used == {} {
      bound := 0;
    } else {
      var id :| id in used;
      var rest := Beyond(used - {id});
      bound := if rest > id then rest else id + 1;
      assert forall other: nat :: other in used ==> other == id || other in used - {id};
    }
  }
}
