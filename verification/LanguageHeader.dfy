/** What headers and language tags say, independently of how `Language` reads them. */
module LanguageHeader {
  import opened Common
  import opened Strings
  import opened Language

  // --- tags -----------------------------------------------------------------------

  predicate IsTail(tail: string) {
    Blank(tail) || (tail != "" && IsHyphen(tail[0]))
  }

  /**
   * The value is white space, then letters that spell the code, then nothing but white
   * space or a hyphen or underscore and anything at all.
   */
  predicate Spells(value: string, code: string, lead: string, primary: string, tail: string) {
    && value == lead + primary + tail && Blank(lead)
    && 2 <= |code| <= 8 && |primary| == |code|
    && (forall i :: 0 <= i < |code| ==> IsLetter(primary[i], code[i]))
    && (Blank(tail) || (tail != "" && (tail[0] == '-' || tail[0] == '_')))
  }

  /** A Latin letter in either case, or the Kelvin sign, whose lower case is a k. */
  predicate IsLetter(c: char, lower: char) {
    && 'a' <= lower <= 'z'
    && (c == lower || (c as int >= 65 && c as int + 32 == lower as int) || (c as int == 0x212A && lower == 'k'))
  }

  lemma LettersSpell(primary: string, code: string)
    ensures Lower(primary) == code && IsCode(code)
       <==> 2 <= |code| <= 8 && |primary| == |code| && forall i :: 0 <= i < |code| ==> IsLetter(primary[i], code[i])
  {
    if |primary| == |code| {
      var lower := Lower(primary);
      forall i | 0 <= i < |code| ensures lower[i] == code[i] && 'a' <= code[i] <= 'z' <==> IsLetter(primary[i], code[i]) {
      }
      if forall i :: 0 <= i < |code| ==> IsLetter(primary[i], code[i]) {
        assert forall i :: 0 <= i < |code| ==> lower[i] == code[i];
      }
    }
  }

  lemma {:induction false} PrimaryCuts(s: string)
    ensures |Primary(s)| <= |s| && s[..|Primary(s)|] == Primary(s)
    ensures |Primary(s)| < |s| ==> IsHyphen(s[|Primary(s)|])
  {
    if s != "" && !IsHyphen(s[0]) { PrimaryCuts(s[1..]); }
  }

  lemma {:induction false} PrimaryOf(a: string, b: string)
    requires IsCode(a) || (forall i :: 0 <= i < |a| ==> !IsHyphen(a[i]))
    requires b == "" || IsHyphen(b[0])
    ensures Primary(a + b) == a
  {
    if a == "" {
      assert a + b == b;
    } else {
      assert (a + b)[1..] == a[1..] + b;
      PrimaryOf(a[1..], b);
    }
  }

  lemma TailTrimmed(tail: string)
    requires Blank(tail) || (tail != "" && (tail[0] == '-' || tail[0] == '_'))
    ensures TrimEnd(tail) == "" || IsHyphen(TrimEnd(tail)[0])
  {
    if Blank(tail) {
      TrimEndBlank(tail);
    } else {
      TrimEndConcat([tail[0]], tail[1..]);
      assert tail == [tail[0]] + tail[1..];
    }
  }

  lemma SpelledIsTrimmed(lead: string, primary: string, tail: string)
    requires Blank(lead) && primary != "" && forall i :: 0 <= i < |primary| ==> !IsSpace(primary[i])
    ensures Trim(lead + primary + tail) == primary + TrimEnd(tail)
  {
    assert lead + primary + tail == lead + (primary + tail);
    assert (primary + tail)[0] == primary[0];
    TrimStartSkips(lead, primary + tail);
    TrimEndConcat(primary, tail);
  }

  lemma SpelledIsNormalized(value: string, code: string, lead: string, primary: string, tail: string)
    requires Spells(value, code, lead, primary, tail)
    ensures NormalizeCode(value) == Some(code)
  {
    LettersSpell(primary, code);
    LettersAreNotSpace(primary);
    SpelledIsTrimmed(lead, primary, tail);
    TailTrimmed(tail);
    var rest := TrimEnd(tail);
    assert Lower(primary + rest) == code + Lower(rest);
    PrimaryOf(code, Lower(rest));
  }

  lemma LettersAreNotSpace(primary: string)
    requires IsCode(Lower(primary))
    ensures primary != "" && forall i :: 0 <= i < |primary| ==> !IsSpace(primary[i])
  {
    var lower := Lower(primary);
    forall i | 0 <= i < |primary| ensures !IsSpace(primary[i]) {
      assert 'a' <= lower[i] <= 'z';
    }
  }

  /** Where the primary subtag of a value without leading white space ends. */
  lemma CutPrimary(start: string, n: nat)
    requires n == |Primary(Lower(TrimEnd(start)))|
    ensures n <= |start| && Lower(start[..n]) == Primary(Lower(TrimEnd(start))) && IsTail(start[n..])
  {
    var whole := TrimEnd(start);
    TrimEndRemovesBlanks(start);
    PrimaryCuts(Lower(whole));
    assert Lower(start[..n]) == Lower(whole)[..n];
    if n < |whole| {
      assert start[n] == whole[n];
      assert IsHyphen(Lower(whole)[n]);
    }
  }

  lemma ThreeParts(value: string, m: nat, n: nat)
    requires m + n <= |value|
    ensures value == value[..m] + value[m..][..n] + value[m..][n..]
  {
  }

  lemma PartsSpell(value: string, m: nat, n: nat, code: string)
    requires m + n <= |value| && Blank(value[..m]) && IsCode(code)
    requires Lower(value[m..][..n]) == code && IsTail(value[m..][n..])
    ensures Spells(value, code, value[..m], value[m..][..n], value[m..][n..])
  {
    ThreeParts(value, m, n);
    LettersSpell(value[m..][..n], code);
  }

  lemma NormalizedIsSpelled(value: string) returns (lead: string, primary: string, tail: string)
    requires NormalizeCode(value).Some?
    ensures Spells(value, NormalizeCode(value).value, lead, primary, tail)
  {
    TrimStartRemovesBlanks(value);
    var m, n := |value| - |TrimStart(value)|, |Primary(Lower(Trim(value)))|;
    CutPrimary(TrimStart(value), n);
    lead, primary, tail := value[..m], value[m..][..n], value[m..][n..];
    PartsSpell(value, m, n, NormalizeCode(value).value);
  }

  /** `normalizeCode` accepts exactly the values that spell a code, and answers that code. */
  lemma NormalizeCodeExactly(value: string, code: string)
    ensures NormalizeCode(value) == Some(code)
       <==> exists lead, primary, tail :: Spells(value, code, lead, primary, tail)
  {
    if NormalizeCode(value) == Some(code) {
      var lead, primary, tail := NormalizedIsSpelled(value);
    }
    if lead, primary, tail :| Spells(value, code, lead, primary, tail) {
      SpelledIsNormalized(value, code, lead, primary, tail);
    }
  }

  // --- whole headers -----------------------------------------------------------------

  /** A language range as it is written in a header, with its weight if it has one. */
  datatype Item = Item(pad: string, tag: string, weight: Option<string>)

  /** Visible characters other than the separators. */
  predicate IsToken(s: string) {
    s != "" && forall i :: 0 <= i < |s| ==> !IsSpace(s[i]) && s[i] != ',' && s[i] != ';'
  }

  predicate WellFormed(item: Item) {
    && Blank(item.pad) && ',' !in item.pad
    && IsToken(item.tag) && (item.weight.Some? ==> IsToken(item.weight.value))
  }

  function Range(item: Item): string {
    if item.weight.Some? then item.tag + ";" + Weight(item.weight.value) else item.tag
  }

  function Spellings(items: seq<Item>): (r: seq<string>)
    ensures |r| == |items| && forall i :: 0 <= i < |items| ==> r[i] == items[i].pad + Range(items[i])
  {
    seq(|items|, i requires 0 <= i < |items| => items[i].pad + Range(items[i]))
  }

  /** What an item stands for: its normalised code and its weight, 1 by default. */
  function Meaning(item: Item, parseFloat: ParseFloat): Entry {
    var q := if item.weight.Some? then parseFloat(item.weight.value) else Some(1.0);
    Entry(if item.tag == "*" then None else NormalizeCode(item.tag), if q.Some? then q.value else 0.0)
  }

  lemma {:induction false} SplitPrefix(part: string, rest: string, c: char)
    requires c !in part
    ensures var r := Split(rest, [c]); Split(part + rest, [c]) == [part + r[0]] + r[1..]
  {
    var r := Split(rest, [c]);
    if part == "" {
      assert part + rest == rest && part + r[0] == r[0];
    } else {
      var tail := part[1..] + rest;
      assert part + rest == [part[0]] + tail;
      assert (part + rest)[1..] == tail;
      SplitPrefix(part[1..], rest, c);
      assert part + r[0] == [part[0]] + (part[1..] + r[0]);
    }
  }

  lemma SplitAtSeparator(rest: string, c: char)
    ensures Split([c] + rest, [c]) == [""] + Split(rest, [c])
  {
    assert ([c] + rest)[1..] == rest && ([c] + rest)[..1] == [c];
  }

  /** Splitting undoes joining when no part holds the separator. */
  lemma {:induction false} SplitUndoesJoin(parts: seq<string>, c: char)
    requires parts != [] && forall i :: 0 <= i < |parts| ==> c !in parts[i]
    ensures Split(Join(parts, [c]), [c]) == parts
  {
    if |parts| == 1 {
      SplitPrefix(parts[0], "", c);
      assert parts[0] + "" == parts[0];
    } else {
      var rest := Join(parts[1..], [c]);
      SplitUndoesJoin(parts[1..], c);
      SplitAtSeparator(rest, c);
      assert Join(parts, [c]) == parts[0] + ([c] + rest);
      SplitPrefix(parts[0], [c] + rest, c);
      assert parts[0] + "" == parts[0];
    }
  }

  lemma TrimToken(lead: string, s: string)
    requires Blank(lead) && s != "" && !IsSpace(s[0]) && !IsSpace(s[|s| - 1])
    ensures Trim(lead + s) == s
  {
    TrimStartSkips(lead, s);
    TrimEndConcat(s, "");
    assert s + "" == s;
  }

  function Weight(w: string): string {
    "q=" + w
  }

  lemma WeightIsRead(w: string)
    requires IsToken(w)
    ensures Quality([Weight(w)]) == Some(w) && ';' !in Weight(w) && ',' !in Weight(w)
  {
    var q := Weight(w);
    assert q[|q| - 1] == w[|w| - 1];
    TrimToken("", q);
    assert "" + q == q;
    assert q[2..] == w;
  }

  lemma SplitWeighted(tag: string, q: string)
    requires ';' !in tag && ';' !in q
    ensures Split(tag + ";" + q, ";") == [tag, q]
  {
    var pieces := [tag, q];
    assert pieces[1..] == [q];
    assert Join(pieces, ";") == tag + ";" + q;
    SplitUndoesJoin(pieces, ';');
  }

  lemma ReadItem(item: Item, parseFloat: ParseFloat)
    requires WellFormed(item)
    ensures ReadPart(item.pad + Range(item), parseFloat) == Meaning(item, parseFloat)
  {
    var range := Range(item);
    assert range[0] == item.tag[0];
    if item.weight.Some? {
      var w := item.weight.value;
      assert range[|range| - 1] == w[|w| - 1];
      TrimToken(item.pad, range);
      WeightIsRead(w);
      SplitWeighted(item.tag, Weight(w));
      assert [item.tag, Weight(w)][1..] == [Weight(w)];
    } else {
      TrimToken(item.pad, range);
      SplitUndoesJoin([range], ';');
      assert Join([range], ";") == range;
    }
  }

  /** A header written from well-formed items is read back as exactly their meanings, in order. */
  lemma HeaderRoundTrip(items: seq<Item>, parseFloat: ParseFloat)
    requires items != [] && forall i :: 0 <= i < |items| ==> WellFormed(items[i])
    ensures var r := Entries(Some(Join(Spellings(items), ",")), parseFloat);
      && |r| == |items| && (forall i :: 0 <= i < |items| ==> r[i] == Meaning(items[i], parseFloat))
      && (forall i :: 0 <= i < |items| && items[i].weight.Some? && parseFloat(items[i].weight.value).None? ==> r[i].q == 0.0)
  {
    var parts := Spellings(items);
    forall i | 0 <= i < |parts| ensures ',' !in parts[i] {
      NoComma(items[i]);
    }
    SplitUndoesJoin(parts, ',');
    assert Join(parts, ",") != "" by {
      assert |items[0].pad + Range(items[0])| > 0;
      assert parts[0] != "";
    }
    forall i | 0 <= i < |items| ensures ReadPart(parts[i], parseFloat) == Meaning(items[i], parseFloat) {
      ReadItem(items[i], parseFloat);
    }
  }

  lemma NoComma(item: Item)
    requires WellFormed(item)
    ensures ',' !in item.pad + Range(item)
  {
    if item.weight.Some? {
      WeightIsRead(item.weight.value);
    }
  }

  // --- where the reading departs from section 12.4.2 of RFC 9110 ----------------------------

  /** The quality comes from the first parameter that starts with a lower-case `q=`, if there is one. */
  lemma {:induction false} QualityExactly(params: seq<string>)
    ensures Quality(params).None? <==> forall i :: 0 <= i < |params| ==> !StartsWith(Trim(params[i]), "q=")
    ensures Quality(params).Some? ==> exists i :: FirstQuality(params, i) && Quality(params).value == Trim(params[i])[2..]
  {
    if params != [] && !StartsWith(Trim(params[0]), "q=") {
      var rest := params[1..];
      QualityExactly(rest);
      assert forall i :: 0 <= i < |rest| ==> params[i + 1] == rest[i];
      if Quality(rest).Some? {
        var i :| FirstQuality(rest, i) && Quality(rest).value == Trim(rest[i])[2..];
        assert FirstQuality(params, i + 1);
      }
    }
  }

  predicate FirstQuality(params: seq<string>, i: int) {
    && 0 <= i < |params| && StartsWith(Trim(params[i]), "q=")
    && forall k :: 0 <= k < i ==> !StartsWith(Trim(params[k]), "q=")
  }

  function UpperWeight(w: string): string {
    "Q=" + w
  }

  lemma UpperWeightIsNoQuality(w: string)
    requires IsToken(w)
    ensures Quality([UpperWeight(w)]).None? && ';' !in UpperWeight(w) && ',' !in UpperWeight(w)
  {
    var q := UpperWeight(w);
    assert q[|q| - 1] == w[|w| - 1];
    TrimVisible(q);
    assert [q][1..] == [];
  }

  lemma TrimVisible(s: string)
    requires s != "" && !IsSpace(s[0]) && !IsSpace(s[|s| - 1])
    ensures Trim(s) == s
  {
    TrimToken("", s);
    assert "" + s == s;
  }

  /** A weight written with an upper-case Q is not read: the quality is 1 whatever it says. */
  lemma UpperCaseWeightIsIgnored(tag: string, w: string, parseFloat: ParseFloat)
    requires IsToken(tag) && tag != "*" && IsToken(w)
    ensures ReadPart(tag + ";" + UpperWeight(w), parseFloat) == Entry(NormalizeCode(tag), 1.0)
  {
    var q := UpperWeight(w);
    var part := tag + ";" + q;
    UpperWeightIsNoQuality(w);
    assert part[0] == tag[0] && part[|part| - 1] == w[|w| - 1];
    TrimVisible(part);
    SplitWeighted(tag, q);
    assert [tag, q][1..] == [q];
  }

  /** Of two usable active entries the first is chosen unless the second has the greater quality. */
  lemma TwoEntryChoice(header: Option<string>, parseFloat: ParseFloat, active: set<string>)
    requires |Entries(header, parseFloat)| == 2
    requires Candidate(Entries(header, parseFloat), active, 0) && Candidate(Entries(header, parseFloat), active, 1)
    ensures var entries := Entries(header, parseFloat);
      FirstActive(Parsed(header, parseFloat), active) == if entries[1].q > entries[0].q then entries[1].code else entries[0].code
  {
    var entries := Entries(header, parseFloat);
    ScanFindsWinner(header, parseFloat, active);
    assert Wins(entries, active, if entries[1].q > entries[0].q then 1 else 0);
  }

  lemma TwoParts(a: string, b: string, parseFloat: ParseFloat)
    requires ',' !in a && ',' !in b
    ensures Entries(Some(a + "," + b), parseFloat) == [ReadPart(a, parseFloat), ReadPart(b, parseFloat)]
  {
    var parts := [a, b];
    assert parts[1..] == [b] && Join(parts, ",") == a + "," + b;
    SplitUndoesJoin(parts, ',');
  }

  lemma PlainTag(tag: string, parseFloat: ParseFloat)
    requires IsToken(tag) && tag != "*"
    ensures ReadPart(tag, parseFloat) == Entry(NormalizeCode(tag), 1.0)
  {
    var item := Item("", tag, None);
    ReadItem(item, parseFloat);
    assert "" + tag == tag;
  }

  lemma WeightedTag(tag: string, w: string, parseFloat: ParseFloat)
    requires IsToken(tag) && tag != "*" && IsToken(w) && parseFloat(w).Some?
    ensures ReadPart(tag + ";" + Weight(w), parseFloat) == Entry(NormalizeCode(tag), parseFloat(w).value)
  {
    var item := Item("", tag, Some(w));
    ReadItem(item, parseFloat);
    var range := tag + ";" + Weight(w);
    assert Range(item) == range && "" + range == range;
  }

  lemma NoCommaIn(tag: string, weight: string)
    requires ',' !in tag && ',' !in weight
    ensures ',' !in tag + ";" + weight
  {
  }

  /** So the first language is chosen however small the weight its upper-case Q announces. */
  lemma UpperCaseWeightDecides(a: string, b: string, low: string, high: string, parseFloat: ParseFloat, active: set<string>)
    requires IsToken(a) && IsToken(b) && a != "*" && b != "*" && IsToken(low) && IsToken(high)
    requires NormalizeCode(a).Some? && NormalizeCode(b).Some? && NormalizeCode(a).value in active && NormalizeCode(b).value in active
    requires parseFloat(high).Some? && 0.0 < parseFloat(high).value <= 1.0
    ensures FirstActive(Parsed(Some(a + ";" + UpperWeight(low) + "," + (b + ";" + Weight(high))), parseFloat), active) == NormalizeCode(a)
  {
    var first, second := a + ";" + UpperWeight(low), b + ";" + Weight(high);
    UpperCaseWeightIsIgnored(a, low, parseFloat);
    UpperWeightIsNoQuality(low);
    WeightIsRead(high);
    WeightedTag(b, high, parseFloat);
    NoCommaIn(a, UpperWeight(low));
    NoCommaIn(b, Weight(high));
    TwoParts(first, second, parseFloat);
    TwoEntryChoice(Some(first + "," + second), parseFloat, active);
  }

  /** And a quality above 1, which the grammar does not allow, beats an entry of full quality before it. */
  lemma QualityAboveOneDecides(a: string, b: string, w: string, parseFloat: ParseFloat, active: set<string>)
    requires IsToken(a) && IsToken(b) && a != "*" && b != "*" && IsToken(w)
    requires NormalizeCode(a).Some? && NormalizeCode(b).Some? && NormalizeCode(a).value in active && NormalizeCode(b).value in active
    requires parseFloat(w).Some? && parseFloat(w).value > 0.0
    ensures FirstActive(Parsed(Some(a + "," + (b + ";" + Weight(w))), parseFloat), active)
         == if parseFloat(w).value > 1.0 then NormalizeCode(b) else NormalizeCode(a)
  {
    var second := b + ";" + Weight(w);
    PlainTag(a, parseFloat);
    WeightedTag(b, w, parseFloat);
    WeightIsRead(w);
    NoCommaIn(b, Weight(w));
    TwoParts(a, second, parseFloat);
    TwoEntryChoice(Some(a + "," + second), parseFloat, active);
  }

  lemma CodeIsItsTag(code: string)
    requires IsCode(code)
    ensures NormalizeCode(code) == Some(code) && IsToken(code) && code != "*"
  {
    assert code == "" + code + "" && Lower(code) == code;
    SpelledIsNormalized(code, code, "", code, "");
  }

  lemma UpperCaseWeightOnCodes(a: string, b: string, low: string, high: string, parseFloat: ParseFloat, active: set<string>)
    requires IsCode(a) && IsCode(b) && a in active && b in active && IsToken(low) && IsToken(high)
    requires parseFloat(high).Some? && 0.0 < parseFloat(high).value <= 1.0
    ensures FirstActive(Parsed(Some(a + ";" + UpperWeight(low) + "," + (b + ";" + Weight(high))), parseFloat), active) == Some(a)
  {
    CodeIsItsTag(a);
    CodeIsItsTag(b);
    UpperCaseWeightDecides(a, b, low, high, parseFloat, active);
  }

  lemma QualityAboveOneOnCodes(a: string, b: string, w: string, parseFloat: ParseFloat, active: set<string>)
    requires IsCode(a) && IsCode(b) && a in active && b in active && IsToken(w)
    requires parseFloat(w).Some? && parseFloat(w).value > 1.0
    ensures FirstActive(Parsed(Some(a + "," + (b + ";" + Weight(w))), parseFloat), active) == Some(b)
  {
    CodeIsItsTag(a);
    CodeIsItsTag(b);
    QualityAboveOneDecides(a, b, w, parseFloat, active);
  }

  /** English is chosen from "en;Q=0.1,el;q=0.9". */
  lemma UpperCaseExample(parseFloat: ParseFloat, active: set<string>)
    returns (en: string, el: string, low: string, high: string)
    requires parseFloat("0.9") == Some(0.9) && "en" in active && "el" in active
    ensures en == "en" && el == "el" && low == "0.1" && high == "0.9"
    ensures FirstActive(Parsed(Some(en + ";" + UpperWeight(low) + "," + (el + ";" + Weight(high))), parseFloat), active) == Some(en)
  {
    en, el, low, high := "en", "el", "0.1", "0.9";
    UpperCaseWeightOnCodes(en, el, low, high, parseFloat, active);
  }

  /** Greek is chosen from "en,el;q=2". */
  lemma AboveOneExample(parseFloat: ParseFloat, active: set<string>) returns (en: string, el: string, two: string)
    requires parseFloat("2") == Some(2.0) && "en" in active && "el" in active
    ensures en == "en" && el == "el" && two == "2"
    ensures FirstActive(Parsed(Some(en + "," + (el + ";" + Weight(two))), parseFloat), active) == Some(el)
  {
    en, el, two := "en", "el", "2";
    QualityAboveOneOnCodes(en, el, two, parseFloat, active);
  }
}
