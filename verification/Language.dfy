/**
 * Language negotiation (src/i18n/language.service.ts). `parseFloat` is a
 * parameter: None stands for a result that is not a finite number.
 */
module Language {
  import opened Common
  import opened Strings

  const FALLBACK_LANGUAGE_CODE := "el"

  /** An active language row. */
  datatype LanguageRow = LanguageRow(code: string, isDefault: bool)

  /** The raw `lang` query value: a string, a list, or something else. */
  datatype LangParam = Unusable | Text(value: string) | Many(items: seq<LangParam>)

  /** A part of the header: its code if it has one, and its quality. */
  datatype Entry = Entry(code: Option<string>, q: real)

  /** A usable part with its position in the header. */
  datatype Ranked = Ranked(code: string, q: real, index: nat)

  type ParseFloat = string -> Option<real>

  // --- codes ----------------------------------------------------------------------

  function Trim(s: string): string {
    TrimEnd(TrimStart(s))
  }

  /** `toLowerCase`, as far as it can yield a Latin letter: the Kelvin sign becomes a k. */
  function LowerChar(c: char): char {
    if 'A' <= c <= 'Z' then c - 'A' + 'a' else if c == '\U{212A}' then 'k' else c
  }

  function Lower(s: string): (r: string)
    ensures |r| == |s| && forall i :: 0 <= i < |s| ==> r[i] == LowerChar(s[i])
  {
    seq(|s|, i requires 0 <= i < |s| => LowerChar(s[i]))
  }

  predicate IsHyphen(c: char) {
    c == '-' || c == '_'
  }

  /** The part before the first hyphen or underscore. */
  function Primary(s: string): string {
    if s == "" || IsHyphen(s[0]) then "" else [s[0]] + Primary(s[1..])
  }

  predicate IsCode(s: string) {
    2 <= |s| <= 8 && forall i :: 0 <= i < |s| ==> 'a' <= s[i] <= 'z'
  }

  function NormalizeCode(value: string): Option<string> {
    var primary := Primary(Lower(Trim(value)));
    if IsCode(primary) then Some(primary) else None
  }

  function ParamCode(p: LangParam): Option<string> {
    var first := if p.Many? then (if p.items == [] then Unusable else p.items[0]) else p;
    if first.Text? then NormalizeCode(first.value) else None
  }

  // --- the header ---------------------------------------------------------------------

  /** The first parameter that is a quality, without its name. */
  function Quality(params: seq<string>): Option<string> {
    if params == [] then None
    else if StartsWith(Trim(params[0]), "q=") then Some(Trim(params[0])[2..])
    else Quality(params[1..])
  }

  function ReadPart(part: string, parseFloat: ParseFloat): Entry {
    var pieces := Split(Trim(part), ";");
    var weight := Quality(pieces[1..]);
    var q := if weight.Some? then parseFloat(weight.value) else Some(1.0);
    Entry(if pieces[0] == "*" then None else NormalizeCode(pieces[0]), if q.Some? then q.value else 0.0)
  }

  function Entries(header: Option<string>, parseFloat: ParseFloat): (r: seq<Entry>)
  {
    if header.None? || header.value == "" then []
    else
      var parts := Split(header.value, ",");
      seq(|parts|, i requires 0 <= i < |parts| => ReadPart(parts[i], parseFloat))
  }

  predicate IsUsable(e: Entry) {
    e.code.Some? && e.code.value != "" && e.q > 0.0
  }

  function Usable(entries: seq<Entry>): seq<Ranked> {
    if entries == [] then []
    else
      var n := |entries| - 1;
      Usable(entries[..n]) + (if IsUsable(entries[n]) then [Ranked(entries[n].code.value, entries[n].q, n)] else [])
  }

  /** The comparator of the sort: greater quality first, then position. */
  predicate Before(a: Ranked, b: Ranked) {
    a.q > b.q || (a.q == b.q && a.index < b.index)
  }

  function Insert(e: Ranked, sorted: seq<Ranked>): seq<Ranked> {
    if sorted == [] || Before(e, sorted[0]) then [e] + sorted else [sorted[0]] + Insert(e, sorted[1..])
  }

  function Sort(entries: seq<Ranked>): seq<Ranked> {
    if entries == [] then [] else Insert(entries[|entries| - 1], Sort(entries[..|entries| - 1]))
  }

  function Codes(entries: seq<Ranked>): (r: seq<string>)
    ensures |r| == |entries| && forall i :: 0 <= i < |entries| ==> r[i] == entries[i].code
  {
    seq(|entries|, i requires 0 <= i < |entries| => entries[i].code)
  }

  /** First occurrences, in order. */
  function Firsts(codes: seq<string>): seq<string> {
    if codes == [] then []
    else
      var rest := Firsts(codes[..|codes| - 1]);
      if codes[|codes| - 1] in rest then rest else rest + [codes[|codes| - 1]]
  }

  function Parsed(header: Option<string>, parseFloat: ParseFloat): seq<string> {
    Firsts(Codes(Sort(Usable(Entries(header, parseFloat)))))
  }

  // --- sorting ---------------------------------------------------------------------------

  ghost predicate Sorted(s: seq<Ranked>) {
    forall i, j :: 0 <= i < j < |s| ==> Before(s[i], s[j])
  }

  lemma {:induction false} InsertKeeps(e: Ranked, s: seq<Ranked>)
    requires Sorted(s) && forall i :: 0 <= i < |s| ==> s[i].index != e.index
    ensures Sorted(Insert(e, s)) && forall x :: x in Insert(e, s) <==> x == e || x in s
  {
    if s != [] && !Before(e, s[0]) {
      InsertKeeps(e, s[1..]);
      var rest := Insert(e, s[1..]);
      forall j | 0 <= j < |rest| ensures Before(s[0], rest[j]) {
        assert rest[j] in rest;
      }
      assert forall x :: x in s <==> x == s[0] || x in s[1..];
    } else {
      assert forall x :: x in [e] + s <==> x == e || x in s;
    }
  }

  lemma {:induction false} SortSorts(s: seq<Ranked>)
    requires forall i, j :: 0 <= i < j < |s| ==> s[i].index != s[j].index
    ensures Sorted(Sort(s)) && forall x :: x in Sort(s) <==> x in s
  {
    if s != [] {
      var n := |s| - 1;
      SortSorts(s[..n]);
      var rest := Sort(s[..n]);
      forall i | 0 <= i < |rest| ensures rest[i].index != s[n].index {
        assert rest[i] in rest;
        var k :| 0 <= k < |s[..n]| && s[..n][k] == rest[i];
      }
      InsertKeeps(s[n], rest);
      assert forall x :: x in s <==> x in s[..n] || x == s[n];
    }
  }

  /** `x` stands for the entry at its position, which has a code and a positive quality. */
  ghost predicate IsEntry(entries: seq<Entry>, x: Ranked) {
    && x.index < |entries| && x.code != "" && x.q > 0.0
    && entries[x.index].code == Some(x.code) && entries[x.index].q == x.q
  }

  /** The usable entries are exactly those with a code and a positive quality, under their own positions. */
  lemma {:induction false} UsableExactly(entries: seq<Entry>)
    ensures forall x :: x in Usable(entries) <==> IsEntry(entries, x)
    ensures forall i, j :: 0 <= i < j < |Usable(entries)| ==> Usable(entries)[i].index < Usable(entries)[j].index
  {
    if entries != [] {
      var n := |entries| - 1;
      UsableExactly(entries[..n]);
      var rest := Usable(entries[..n]);
      forall i | 0 <= i < |rest| ensures rest[i].index < n { assert rest[i] in rest; }
      forall x
        ensures x in Usable(entries) <==> IsEntry(entries, x)
      {
        if x.index < n { assert entries[..n][x.index] == entries[x.index]; }
      }
    }
  }

  function RankedAt(entries: seq<Entry>, i: nat): Ranked
    requires i < |entries| && IsUsable(entries[i])
  {
    Ranked(entries[i].code.value, entries[i].q, i)
  }

  function Order(header: Option<string>, parseFloat: ParseFloat): seq<Ranked> {
    Sort(Usable(Entries(header, parseFloat)))
  }

  lemma OrderFacts(header: Option<string>, parseFloat: ParseFloat)
    ensures Sorted(Order(header, parseFloat))
    ensures var entries := Entries(header, parseFloat);
      forall x :: x in Order(header, parseFloat) <==> IsEntry(entries, x)
  {
    UsableExactly(Entries(header, parseFloat));
    SortSorts(Usable(Entries(header, parseFloat)));
  }

  // --- the parsed list ----------------------------------------------------------------------

  function FirstAt(codes: seq<string>, code: string): (i: nat)
    ensures i <= |codes| && (i < |codes| <==> code in codes) && (i < |codes| ==> codes[i] == code)
    ensures forall k :: 0 <= k < i ==> codes[k] != code
  {
    if codes == [] || codes[0] == code then 0 else 1 + FirstAt(codes[1..], code)
  }

  lemma FirstAtLast(codes: seq<string>, code: string)
    requires codes != []
    ensures var n := |codes| - 1;
      && (code in codes[..n] ==> FirstAt(codes, code) == FirstAt(codes[..n], code) < n)
      && (code !in codes[..n] && code == codes[n] ==> FirstAt(codes, code) == n)
  {
    var n := |codes| - 1;
    var j := FirstAt(codes[..n], code);
    assert forall k :: 0 <= k < n ==> codes[..n][k] == codes[k];
    assert j < n ==> codes[j] == code;
    assert forall k :: 0 <= k < j ==> codes[k] != code;
  }

  lemma {:induction false} FirstsInOrder(codes: seq<string>)
    ensures forall c :: c in Firsts(codes) <==> c in codes
    ensures forall i, j :: 0 <= i < j < |Firsts(codes)| ==>
      FirstAt(codes, Firsts(codes)[i]) < FirstAt(codes, Firsts(codes)[j])
  {
    if codes != [] {
      var n := |codes| - 1;
      FirstsInOrder(codes[..n]);
      var rest, all := Firsts(codes[..n]), Firsts(codes);
      assert forall c :: c in codes <==> c in codes[..n] || c == codes[n];
      forall i, j | 0 <= i < j < |all| ensures FirstAt(codes, all[i]) < FirstAt(codes, all[j]) {
        FirstAtLast(codes, all[i]);
        FirstAtLast(codes, all[j]);
        assert rest[i] in rest;
        if j < |rest| { assert rest[j] in rest; }
      }
    }
  }

  /** The usable entries with this code. */
  ghost predicate Offers(header: Option<string>, parseFloat: ParseFloat, code: string, i: nat) {
    var entries := Entries(header, parseFloat);
    i < |entries| && entries[i].code == Some(code) && code != "" && entries[i].q > 0.0
  }

  ghost predicate OfferedFirst(header: Option<string>, parseFloat: ParseFloat, a: string, b: string) {
    var entries := Entries(header, parseFloat);
    exists i: nat :: Offers(header, parseFloat, a, i) &&
      forall j: nat :: Offers(header, parseFloat, b, j) ==>
        entries[i].q > entries[j].q || (entries[i].q == entries[j].q && i < j)
  }

  /**
   * The parsed list has no duplicates, contains exactly the codes of usable entries, and
   * is ordered by each code's best entry: greatest quality first, earliest on ties.
   */
  lemma ParsedExactly(header: Option<string>, parseFloat: ParseFloat)
    ensures var r := Parsed(header, parseFloat);
      && (forall c :: c in r <==> exists i :: Offers(header, parseFloat, c, i))
      && (forall i, j :: 0 <= i < j < |r| ==> r[i] != r[j] && OfferedFirst(header, parseFloat, r[i], r[j]))
  {
    var order, r := Order(header, parseFloat), Parsed(header, parseFloat);
    var entries := Entries(header, parseFloat);
    OrderFacts(header, parseFloat);
    FirstsInOrder(Codes(order));
    forall c ensures c in r <==> exists i :: Offers(header, parseFloat, c, i) {
      if c in r {
        var k :| 0 <= k < |order| && Codes(order)[k] == c;
        assert order[k] in order;
        assert Offers(header, parseFloat, c, order[k].index);
      } else if exists i :: Offers(header, parseFloat, c, i) {
        var i :| Offers(header, parseFloat, c, i);
        OfferIsOrdered(header, parseFloat, c, i);
      }
    }
    forall i, j | 0 <= i < j < |r| ensures r[i] != r[j] && OfferedFirst(header, parseFloat, r[i], r[j]) {
      EarlierCodeOffersFirst(header, parseFloat, r[i], r[j]);
    }
  }

  lemma OfferIsOrdered(header: Option<string>, parseFloat: ParseFloat, c: string, i: nat)
    requires Offers(header, parseFloat, c, i)
    ensures c in Codes(Order(header, parseFloat))
    ensures RankedAt(Entries(header, parseFloat), i) in Order(header, parseFloat)
  {
    OrderFacts(header, parseFloat);
    var order := Order(header, parseFloat);
    assert RankedAt(Entries(header, parseFloat), i) in order;
    var k :| 0 <= k < |order| && order[k] == RankedAt(Entries(header, parseFloat), i);
    assert Codes(order)[k] == c;
  }

  lemma EarlierCodeOffersFirst(header: Option<string>, parseFloat: ParseFloat, a: string, b: string)
    requires var codes := Codes(Order(header, parseFloat)); a in codes && FirstAt(codes, a) < FirstAt(codes, b)
    ensures OfferedFirst(header, parseFloat, a, b)
  {
    var order, entries := Order(header, parseFloat), Entries(header, parseFloat);
    OrderFacts(header, parseFloat);
    var at := FirstAt(Codes(order), a);
    assert order[at] in order;
    var i := order[at].index;
    assert Offers(header, parseFloat, a, i) && RankedAt(entries, i) == order[at];
    forall j: nat | Offers(header, parseFloat, b, j)
      ensures entries[i].q > entries[j].q || (entries[i].q == entries[j].q && i < j)
    {
      OfferIsOrdered(header, parseFloat, b, j);
      var k :| 0 <= k < |order| && order[k] == RankedAt(entries, j);
      assert Codes(order)[k] == b;
    }
  }

  // --- the choice -------------------------------------------------------------------------------

  /** The first active code, if any. */
  function FirstActive(codes: seq<string>, active: set<string>): Option<string> {
    if codes == [] then None
    else
      var n := |codes| - 1;
      var earlier := FirstActive(codes[..n], active);
      if earlier.Some? then earlier else if codes[n] in active then Some(codes[n]) else None
  }

  lemma {:induction false} FirstActiveIsFirst(codes: seq<string>, active: set<string>)
    ensures FirstActive(codes, active).None? <==> forall i :: 0 <= i < |codes| ==> codes[i] !in active
    ensures FirstActive(codes, active).Some? ==> exists i ::
      && 0 <= i < |codes| && codes[i] in active && FirstActive(codes, active) == Some(codes[i])
      && forall k :: 0 <= k < i ==> codes[k] !in active
  {
    if codes != [] {
      var n := |codes| - 1;
      FirstActiveIsFirst(codes[..n], active);
      if FirstActive(codes[..n], active).Some? {
        var i :| 0 <= i < |codes[..n]| && codes[..n][i] in active && FirstActive(codes[..n], active) == Some(codes[..n][i])
          && forall k :: 0 <= k < i ==> codes[..n][k] !in active;
        forall k | 0 <= k < i ensures codes[k] !in active { assert codes[..n][k] == codes[k]; }
        assert codes[i] == codes[..n][i];
      } else {
        forall k | 0 <= k < n ensures codes[k] !in active { assert codes[..n][k] == codes[k]; }
      }
    }
  }

  /** Dropping repeats does not change the choice. */
  lemma {:induction false} RepeatsDoNotMatter(codes: seq<string>, active: set<string>)
    ensures FirstActive(Firsts(codes), active) == FirstActive(codes, active)
  {
    if codes != [] {
      var n := |codes| - 1;
      var rest := Firsts(codes[..n]);
      RepeatsDoNotMatter(codes[..n], active);
      if codes[n] in rest {
        FirstActiveIsFirst(rest, active);
      } else {
        assert (rest + [codes[n]])[..|rest|] == rest;
      }
    }
  }

  predicate Candidate(entries: seq<Entry>, active: set<string>, k: int) {
    0 <= k < |entries| && entries[k].code.Some? && entries[k].code.value != "" && entries[k].q > 0.0
    && entries[k].code.value in active
  }

  /** An entry with an active code, when every other such entry has a smaller quality or comes later. */
  ghost predicate Wins(entries: seq<Entry>, active: set<string>, k: int) {
    && Candidate(entries, active, k)
    && forall j :: Candidate(entries, active, j) && j != k ==>
         entries[k].q > entries[j].q || (entries[k].q == entries[j].q && k < j)
  }

  /** The code of the one winning entry, or nothing when there is no candidate. */
  ghost predicate IsBestCode(entries: seq<Entry>, active: set<string>, found: Option<string>) {
    if found.Some? then
      exists k :: Wins(entries, active, k) && entries[k].code == found
        && forall j :: Wins(entries, active, j) ==> j == k
    else forall k :: !Candidate(entries, active, k)
  }

  lemma OneWinner(entries: seq<Entry>, active: set<string>, j: int, k: int)
    requires Wins(entries, active, j) && Wins(entries, active, k)
    ensures j == k
  {
  }

  lemma WinnerIsBest(entries: seq<Entry>, active: set<string>, k: int)
    requires Wins(entries, active, k)
    ensures IsBestCode(entries, active, entries[k].code)
  {
    forall j | Wins(entries, active, j) ensures j == k { OneWinner(entries, active, j, k); }
  }

  lemma FirstInOrderWins(entries: seq<Entry>, active: set<string>, order: seq<Ranked>, at: nat)
    requires Sorted(order)
    requires forall x :: x in order <==> IsEntry(entries, x)
    requires at < |order| && order[at].code in active && forall m :: 0 <= m < at ==> order[m].code !in active
    ensures Wins(entries, active, order[at].index) && entries[order[at].index].code == Some(order[at].code)
  {
    assert order[at] in order;
    var k := order[at].index;
    forall j | Candidate(entries, active, j) && j != k
      ensures entries[k].q > entries[j].q || (entries[k].q == entries[j].q && k < j)
    {
      assert RankedAt(entries, j) in order;
      var m :| 0 <= m < |order| && order[m] == RankedAt(entries, j);
    }
  }

  /** Sorting, dropping repeats and scanning finds the winning entry, and finds one whenever there is a candidate. */
  lemma ScanFindsWinner(header: Option<string>, parseFloat: ParseFloat, active: set<string>)
    ensures IsBestCode(Entries(header, parseFloat), active, FirstActive(Parsed(header, parseFloat), active))
  {
    var entries, order := Entries(header, parseFloat), Order(header, parseFloat);
    OrderFacts(header, parseFloat);
    var codes := Codes(order);
    RepeatsDoNotMatter(codes, active);
    FirstActiveIsFirst(codes, active);
    if FirstActive(codes, active).Some? {
      var at :| 0 <= at < |codes| && codes[at] in active && FirstActive(codes, active) == Some(codes[at])
        && forall m :: 0 <= m < at ==> codes[m] !in active;
      assert forall m :: 0 <= m < at ==> order[m].code == codes[m];
      FirstInOrderWins(entries, active, order, at);
      WinnerIsBest(entries, active, order[at].index);
    } else {
      forall k | 0 <= k < |entries| && IsUsable(entries[k]) ensures entries[k].code.value !in active {
        assert RankedAt(entries, k) in order;
        var m :| 0 <= m < |order| && order[m] == RankedAt(entries, k);
        assert codes[m] !in active;
      }
    }
  }

  ghost predicate FirstMarked(languages: seq<LanguageRow>, i: int) {
    0 <= i < |languages| && languages[i].isDefault && forall k :: 0 <= k < i ==> !languages[k].isDefault
  }

  /** Greek when there is no language; else the first one marked as default; else the first one. */
  ghost predicate IsDefaultOf(languages: seq<LanguageRow>, code: string) {
    || (languages == [] && code == "el")
    || (exists i :: FirstMarked(languages, i) && languages[i].code == code)
    || (languages != [] && code == languages[0].code && forall k :: 0 <= k < |languages| ==> !languages[k].isDefault)
  }

  function DefaultCode(languages: seq<LanguageRow>): (r: string)
    ensures IsDefaultOf(languages, r)
  {
    if languages == [] then FALLBACK_LANGUAGE_CODE
    else if MarkedDefault(languages).Some? then MarkedDefault(languages).value
    else languages[0].code
  }

  lemma MarkedLater(languages: seq<LanguageRow>, r: Option<string>)
    requires languages != [] && !languages[0].isDefault
    requires r.None? ==> forall k :: 0 <= k < |languages[1..]| ==> !languages[1..][k].isDefault
    requires r.Some? ==> exists i :: FirstMarked(languages[1..], i) && languages[1..][i].code == r.value
    ensures r.None? ==> forall k :: 0 <= k < |languages| ==> !languages[k].isDefault
    ensures r.Some? ==> exists i :: FirstMarked(languages, i) && languages[i].code == r.value
  {
    var rest := languages[1..];
    assert forall k :: 0 < k < |languages| ==> languages[k] == rest[k - 1];
    if r.Some? {
      var i :| FirstMarked(rest, i) && rest[i].code == r.value;
      assert FirstMarked(languages, i + 1);
    }
  }

  function MarkedDefault(languages: seq<LanguageRow>): (r: Option<string>)
    ensures r.None? ==> forall k :: 0 <= k < |languages| ==> !languages[k].isDefault
    ensures r.Some? ==> exists i :: FirstMarked(languages, i) && languages[i].code == r.value
  {
    if languages == [] then None
    else if languages[0].isDefault then Some(languages[0].code)
    else
      var r := MarkedDefault(languages[1..]);
      MarkedLater(languages, r);
      r
  }

  // --- the methods --------------------------------------------------------------------------------

  method ParseAcceptLanguage(header: Option<string>, parseFloat: ParseFloat) returns (result: seq<string>)
    ensures result == Parsed(header, parseFloat)
    ensures forall i, j :: 0 <= i < j < |result| ==> result[i] != result[j]
    ensures forall c :: c in result <==> exists i :: Offers(header, parseFloat, c, i)
  {
    ParsedExactly(header, parseFloat);
    var entries := Sort(Usable(Entries(header, parseFloat)));
    var seen: set<string> := {};
    result := [];
    for i := 0 to |entries|
      invariant result == Firsts(Codes(entries)[..i])
      invariant forall c :: c in seen <==> c in result
    {
      assert Codes(entries)[..i + 1][..i] == Codes(entries)[..i];
      var code := entries[i].code;
      if code !in seen {
        seen := seen + {code};
        result := result + [code];
      }
    }
    assert Codes(entries)[..|entries|] == Codes(entries);
  }

  function ActiveCodes(languages: seq<LanguageRow>): set<string> {
    set i | 0 <= i < |languages| :: languages[i].code
  }

  /** The parameter, or the first of its values, is a text that stands for `code`. */
  ghost predicate Asks(p: LangParam, code: string) {
    exists text :: (p == Text(text) || (p.Many? && p.items != [] && p.items[0] == Text(text))) && NormalizeCode(text) == Some(code)
  }

  lemma ParamAsks(p: LangParam)
    ensures forall code :: Asks(p, code) <==> ParamCode(p) == Some(code)
  {
    forall code | ParamCode(p) == Some(code) ensures Asks(p, code) {
      var text := if p.Many? then p.items[0].value else p.value;
      assert NormalizeCode(text) == Some(code);
    }
  }

  lemma DefaultIsActive(languages: seq<LanguageRow>)
    ensures languages != [] ==> DefaultCode(languages) in ActiveCodes(languages)
  {
  }

  /**
   * The `lang` parameter if it names an active language; else the active code of the
   * header's winning entry; else the default. The answer is active unless no language is.
   */
  method Resolve(languages: seq<LanguageRow>, langParam: LangParam, acceptLanguage: Option<string>, parseFloat: ParseFloat)
    returns (code: string)
    ensures languages != [] ==> exists i :: 0 <= i < |languages| && languages[i].code == code
    ensures forall i :: 0 <= i < |languages| && Asks(langParam, languages[i].code) ==> code == languages[i].code
    ensures (forall i :: 0 <= i < |languages| ==> !Asks(langParam, languages[i].code)) ==>
      var active := set i | 0 <= i < |languages| :: languages[i].code;
      || IsBestCode(Entries(acceptLanguage, parseFloat), active, Some(code))
      || (IsBestCode(Entries(acceptLanguage, parseFloat), active, None) && IsDefaultOf(languages, code))
  {
    var active := ActiveCodes(languages);
    var fromParam := ParamCode(langParam);
    ParamAsks(langParam);
    if fromParam.Some? && fromParam.value in active { return fromParam.value; }
    var candidates := ParseAcceptLanguage(acceptLanguage, parseFloat);
    var candidate := Scan(candidates, active);
    ScanFindsWinner(acceptLanguage, parseFloat, active);
    if candidate.Some? { return candidate.value; }
    DefaultIsActive(languages);
    return DefaultCode(languages);
  }

  /** The loop of `resolve` over the parsed codes. */
  method Scan(candidates: seq<string>, active: set<string>) returns (found: Option<string>)
    ensures found == FirstActive(candidates, active)
    ensures found.Some? ==> found.value in active
  {
    for i := 0 to |candidates|
      invariant FirstActive(candidates[..i], active).None?
    {
      assert candidates[..i + 1][..i] == candidates[..i];
      if candidates[i] in active {
        FirstActiveStays(candidates, active, i + 1);
        return Some(candidates[i]);
      }
    }
    assert candidates[..|candidates|] == candidates;
    return None;
  }

  lemma {:induction false} FirstActiveStays(codes: seq<string>, active: set<string>, n: nat)
    requires n <= |codes| && FirstActive(codes[..n], active).Some?
    ensures FirstActive(codes, active) == FirstActive(codes[..n], active)
    decreases |codes|
  {
    if n == |codes| {
      assert codes[..n] == codes;
    } else {
      var m := |codes| - 1;
      assert codes[..m][..n] == codes[..n];
      FirstActiveStays(codes[..m], active, n);
    }
  }
}
