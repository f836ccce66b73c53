/**
 * The HTML part of an invitation says what its text part says, and contains no
 * markup but the renderer's own. Both follow from one fact: the rendered string
 * is the spelling of a sequence of pieces, tags and characters.
 */
module InvitationRendering {
  import opened Strings
  import opened InvitationText

  /** A tag (without its closing bracket) or a character of text. */
  datatype Piece = Tag(tag: string) | Text(c: char)

  predicate WellFormed(p: Piece) {
    p.Tag? ==> p.tag != "" && p.tag[0] == '<' && '>' !in p.tag && '<' !in p.tag[1..]
  }

  function Spell(p: Piece): string {
    match p
    case Tag(tag) => Markup(tag)
    case Text(c) => Entity(c)
  }

  function SpellAll(ps: seq<Piece>): string {
    if ps == [] then "" else Spell(ps[0]) + SpellAll(ps[1..])
  }

  function Shown(p: Piece): string {
    match p
    case Tag(tag) => TagValue(tag)
    case Text(c) => [c]
  }

  function ShownAll(ps: seq<Piece>): string {
    if ps == [] then "" else Shown(ps[0]) + ShownAll(ps[1..])
  }

  function TagsIn(ps: seq<Piece>): seq<string> {
    if ps == [] then []
    else (if ps[0].Tag? then [Markup(ps[0].tag)] else []) + TagsIn(ps[1..])
  }

  // --- reading a spelled sequence back ---------------------------------------

  lemma TagEnd(tag: string, rest: string)
    requires tag != "" && tag[0] == '<' && '>' !in tag
    ensures var s := tag + ">" + rest;
      s[0] == '<' && IndexOf(s, '>') == |tag| && s[..|tag|] == tag && s[..|tag| + 1] == tag + ">" && s[|tag| + 1..] == rest
  {
    var s := tag + ">" + rest;
    assert s[|tag|] == '>';
    assert forall j :: 0 <= j < |tag| ==> s[j] == tag[j];
  }

  lemma {:induction false} DecodeSpelled(ps: seq<Piece>)
    requires forall i :: 0 <= i < |ps| ==> WellFormed(ps[i])
    ensures Decode(SpellAll(ps)) == ShownAll(ps)
  {
    if ps != [] {
      var rest := SpellAll(ps[1..]);
      assert WellFormed(ps[0]);
      match ps[0] {
        case Tag(tag) => TagEnd(tag, rest);
        case Text(c) => DecodeEntity(c, rest);
      }
      DecodeSpelled(ps[1..]);
    }
  }

  lemma {:induction false} TagsSkipText(x: string, rest: string)
    requires '<' !in x
    ensures Tags(x + rest) == Tags(rest)
  {
    if x == "" {
      assert x + rest == rest;
    } else {
      assert (x + rest)[1..] == x[1..] + rest;
      TagsSkipText(x[1..], rest);
    }
  }

  lemma TagsOfPiece(p: Piece, rest: string)
    requires WellFormed(p)
    ensures Tags(Spell(p) + rest) == (if p.Tag? then [Markup(p.tag)] else []) + Tags(rest)
  {
    match p
    case Tag(tag) => TagEnd(tag, rest);
    case Text(c) => EntityIsInert(c); TagsSkipText(Entity(c), rest);
  }

  lemma {:induction false} TagsSpelled(ps: seq<Piece>)
    requires forall i :: 0 <= i < |ps| ==> WellFormed(ps[i])
    ensures Tags(SpellAll(ps)) == TagsIn(ps)
  {
    if ps != [] {
      TagsOfPiece(ps[0], SpellAll(ps[1..]));
      TagsSpelled(ps[1..]);
    }
  }

  lemma {:induction false} CountConcat(a: string, b: string, c: char)
    ensures Count(a + b, c) == Count(a, c) + Count(b, c)
  {
    if a == "" {
      assert a + b == b;
    } else {
      assert (a + b)[1..] == a[1..] + b;
      CountConcat(a[1..], b, c);
    }
  }

  lemma {:induction false} CountAbsent(s: string, c: char)
    requires c !in s
    ensures Count(s, c) == 0
  {
    if s != "" { CountAbsent(s[1..], c); }
  }

  lemma {:induction false} BracketsSpelled(ps: seq<Piece>)
    requires forall i :: 0 <= i < |ps| ==> WellFormed(ps[i])
    ensures Count(SpellAll(ps), '<') == |TagsIn(ps)|
  {
    if ps != [] {
      var rest := SpellAll(ps[1..]);
      assert WellFormed(ps[0]);
      CountConcat(Spell(ps[0]), rest, '<');
      match ps[0] {
        case Tag(tag) =>
          var s := tag + ">";
          assert '<' !in s[1..];
          CountAbsent(s[1..], '<');
        case Text(c) => EntityIsInert(c); CountAbsent(Entity(c), '<');
      }
      BracketsSpelled(ps[1..]);
    }
  }

  // --- the pieces of a body --------------------------------------------------

  function AnchorTag(link: string): string {
    ANCHOR_HREF + Escaped(link) + ANCHOR_STYLE
  }

  function Texts(s: string): seq<Piece> {
    if s == "" then [] else [Text(s[0])] + Texts(s[1..])
  }

  function BlockPieces(block: string, link: string): seq<Piece>
    decreases |block|
  {
    if block == "" then []
    else if StartsWith(block, INVITE_LINK_PLACEHOLDER) then
      [Tag(AnchorTag(link))] + Texts(link) + [Tag(ANCHOR_END_TAG)]
      + BlockPieces(block[|INVITE_LINK_PLACEHOLDER|..], link)
    else
      [if block[0] == '\n' then Tag(BREAK_TAG) else Text(block[0])] + BlockPieces(block[1..], link)
  }

  function ParagraphPieces(block: string, link: string): seq<Piece> {
    [Tag(PARAGRAPH_TAG)] + BlockPieces(block, link) + [Tag(PARAGRAPH_END_TAG)]
  }

  function BodyPieces(blocks: seq<string>, link: string): seq<Piece> {
    if blocks == [] then []
    else ParagraphPieces(blocks[0], link)
         + (if |blocks| == 1 then [] else [Text('\n')] + BodyPieces(blocks[1..], link))
  }

  lemma {:induction false} SpellConcat(a: seq<Piece>, b: seq<Piece>)
    ensures SpellAll(a + b) == SpellAll(a) + SpellAll(b)
  {
    if a == [] {
      assert a + b == b;
    } else {
      assert (a + b)[1..] == a[1..] + b;
      SpellConcat(a[1..], b);
    }
  }

  lemma {:induction false} ShownConcat(a: seq<Piece>, b: seq<Piece>)
    ensures ShownAll(a + b) == ShownAll(a) + ShownAll(b)
  {
    if a == [] {
      assert a + b == b;
    } else {
      assert (a + b)[1..] == a[1..] + b;
      ShownConcat(a[1..], b);
    }
  }

  lemma {:induction false} TagsConcat(a: seq<Piece>, b: seq<Piece>)
    ensures TagsIn(a + b) == TagsIn(a) + TagsIn(b)
  {
    if a == [] {
      assert a + b == b;
    } else {
      assert (a + b)[1..] == a[1..] + b;
      TagsConcat(a[1..], b);
    }
  }

  lemma SpellOne(p: Piece)
    ensures SpellAll([p]) == Spell(p) && ShownAll([p]) == Shown(p)
    ensures TagsIn([p]) == if p.Tag? then [Markup(p.tag)] else []
  {
    assert [p][1..] == [];
  }

  lemma {:induction false} SpellTexts(s: string)
    ensures SpellAll(Texts(s)) == Escaped(s) && ShownAll(Texts(s)) == s && TagsIn(Texts(s)) == []
    ensures forall i :: 0 <= i < |Texts(s)| ==> WellFormed(Texts(s)[i])
  {
    if s != "" {
      SpellTexts(s[1..]);
      assert Texts(s)[1..] == Texts(s[1..]);
      assert s == [s[0]] + s[1..];
    }
  }

  lemma ParagraphTagWellFormed()
    ensures WellFormed(Tag(PARAGRAPH_TAG))
  {
    var start, middle, end := "<p style=\"", "margin:", "0 0 16px 0;\"";
    assert '>' !in start && '>' !in middle && '>' !in end;
    assert PARAGRAPH_TAG[1..] == start[1..] + middle + end;
  }

  lemma ShortTagsWellFormed()
    ensures WellFormed(Tag(BREAK_TAG)) && WellFormed(Tag(ANCHOR_END_TAG)) && WellFormed(Tag(PARAGRAPH_END_TAG))
  {
  }

  lemma AnchorHrefOk()
    ensures |ANCHOR_HREF| > 1 && ANCHOR_HREF[0] == '<' && ANCHOR_HREF[1] == 'a'
    ensures '>' !in ANCHOR_HREF && '<' !in ANCHOR_HREF[1..]
  {
  }

  lemma AnchorStyleOk()
    ensures '<' !in ANCHOR_STYLE && '>' !in ANCHOR_STYLE
  {
    var start, colour, wrap, end := "\" style=\"", "color:#007bff;", "word-break:", "break-all;\"";
    assert '<' !in start && '<' !in colour && '<' !in wrap && '<' !in end;
    assert '>' !in start && '>' !in colour && '>' !in wrap && '>' !in end;
  }

  lemma AnchorTagIsTag(link: string)
    ensures WellFormed(Tag(AnchorTag(link))) && TagValue(AnchorTag(link)) == ""
  {
    EscapedIsInert(link);
    AnchorHrefOk();
    AnchorStyleOk();
    var href, escaped, style := ANCHOR_HREF, Escaped(link), ANCHOR_STYLE;
    var tag := href + escaped + style;
    assert tag[0] == href[0] && tag[1] == href[1];
    assert tag[1..] == href[1..] + escaped + style;
  }

  lemma {:induction false} BlockPiecesWellFormed(block: string, link: string)
    ensures forall i :: 0 <= i < |BlockPieces(block, link)| ==> WellFormed(BlockPieces(block, link)[i])
    decreases |block|
  {
    if block == "" {
    } else if StartsWith(block, INVITE_LINK_PLACEHOLDER) {
      BlockPiecesWellFormed(block[|INVITE_LINK_PLACEHOLDER|..], link);
      SpellTexts(link);
      AnchorTagIsTag(link);
      ShortTagsWellFormed();
    } else {
      BlockPiecesWellFormed(block[1..], link);
      ShortTagsWellFormed();
    }
  }

  lemma {:induction false} BodyPiecesWellFormed(blocks: seq<string>, link: string)
    ensures forall i :: 0 <= i < |BodyPieces(blocks, link)| ==> WellFormed(BodyPieces(blocks, link)[i])
  {
    if blocks != [] {
      BlockPiecesWellFormed(blocks[0], link);
      ParagraphTagWellFormed();
      ShortTagsWellFormed();
      BodyPiecesWellFormed(blocks[1..], link);
    }
  }

  // --- the renderer spells those pieces --------------------------------------

  /** `s.split(sep).join(sub)` in one pass. */
  function Replace(s: string, sep: string, sub: string): string
    requires sep != ""
    decreases |s|
  {
    if s == "" then ""
    else if StartsWith(s, sep) then sub + Replace(s[|sep|..], sep, sub)
    else [s[0]] + Replace(s[1..], sep, sub)
  }

  lemma JoinConsChar(c: char, parts: seq<string>, glue: string)
    requires |parts| > 0
    ensures Join([[c] + parts[0]] + parts[1..], glue) == [c] + Join(parts, glue)
  {
    var longer := [[c] + parts[0]] + parts[1..];
    if |parts| > 1 {
      assert longer[1..] == parts[1..];
      Assoc([c], parts[0], glue);
      Assoc([c], parts[0] + glue, Join(parts[1..], glue));
    }
  }

  lemma {:induction false} SplitJoin(s: string, sep: string, sub: string)
    requires sep != ""
    ensures Join(Split(s, sep), sub) == Replace(s, sep, sub)
    decreases |s|
  {
    if s == "" {
    } else if StartsWith(s, sep) {
      var rest := Split(s[|sep|..], sep);
      SplitJoin(s[|sep|..], sep, sub);
      assert ([""] + rest)[1..] == rest;
      assert "" + sub == sub;
    } else {
      SplitJoin(s[1..], sep, sub);
      JoinConsChar(s[0], Split(s[1..], sep), sub);
    }
  }

  lemma {:induction false} ReplaceSkips(x: string, rest: string, sep: string, sub: string)
    requires sep != "" && sep[0] !in x
    ensures Replace(x + rest, sep, sub) == x + Replace(rest, sep, sub)
  {
    if x == "" {
      assert x + rest == rest;
    } else {
      var s := x + rest;
      assert s[0] == x[0];
      assert !StartsWith(s, sep) by { if StartsWith(s, sep) { PrefixStep(s, sep); } }
      assert s[1..] == x[1..] + rest;
      ReplaceSkips(x[1..], rest, sep, sub);
      Assoc([x[0]], x[1..], Replace(rest, sep, sub));
      assert x == [x[0]] + x[1..];
    }
  }

  function Coded(c: char): string {
    if c == '\n' then Markup(BREAK_TAG) else Entity(c)
  }

  function CodedAll(s: string): string {
    if s == "" then "" else Coded(s[0]) + CodedAll(s[1..])
  }

  lemma {:induction false} BreaksInserted(s: string)
    ensures Replace(Escaped(s), "\n", Markup(BREAK_TAG)) == CodedAll(s)
  {
    if s != "" {
      BreaksInserted(s[1..]);
      var rest := Escaped(s[1..]);
      if s[0] == '\n' {
        var e := "\n" + rest;
        assert e[..1] == "\n" && e[1..] == rest;
      } else {
        ReplaceSkips(Entity(s[0]), rest, "\n", Markup(BREAK_TAG));
      }
    }
  }

  /** Characters that escaping and line breaking leave alone. */
  predicate Plain(c: char) {
    Coded(c) == [c]
  }

  predicate AllPlain(s: string) {
    forall i :: 0 <= i < |s| ==> Plain(s[i])
  }

  lemma {:induction false} PlainStays(s: string)
    requires AllPlain(s)
    ensures Escaped(s) == s
  {
    if s != "" {
      PlainStays(s[1..]);
      assert s == [s[0]] + s[1..];
    }
  }

  lemma CodedStart(c: char)
    ensures Coded(c) != "" && (Coded(c)[0] == c || !Plain(Coded(c)[0]))
    ensures c != '{' ==> '{' !in Coded(c)
  {
  }

  lemma CodedHead(s: string)
    requires s != ""
    ensures CodedAll(s) != "" && (CodedAll(s)[0] == s[0] || !Plain(CodedAll(s)[0]))
    ensures Plain(s[0]) ==> CodedAll(s)[0] == s[0] && CodedAll(s)[1..] == CodedAll(s[1..])
  {
    CodedStart(s[0]);
  }

  /** A plain word starts the coded text exactly when it starts the text. */
  lemma {:induction false} PlainPrefix(s: string, word: string)
    requires AllPlain(word)
    ensures StartsWith(CodedAll(s), word) <==> StartsWith(s, word)
    ensures StartsWith(s, word) ==> CodedAll(s) == word + CodedAll(s[|word|..])
  {
    PlainPrefixStarts(s, word);
    if StartsWith(s, word) {
      assert s == word + s[|word|..];
      PlainPrefixStays(word, s[|word|..]);
    }
  }

  lemma {:induction false} PlainPrefixStarts(s: string, word: string)
    requires AllPlain(word)
    ensures StartsWith(CodedAll(s), word) <==> StartsWith(s, word)
    decreases |word|
  {
    if word != "" && s != "" {
      assert Plain(word[0]);
      CodedHead(s);
      PrefixStep(CodedAll(s), word);
      PrefixStep(s, word);
      if s[0] == word[0] { PlainPrefixStarts(s[1..], word[1..]); }
    }
  }

  lemma {:induction false} PlainPrefixStays(word: string, rest: string)
    requires AllPlain(word)
    ensures CodedAll(word + rest) == word + CodedAll(rest)
  {
    if word == "" {
      assert word + rest == rest;
    } else {
      assert (word + rest)[1..] == word[1..] + rest && Plain(word[0]);
      PlainPrefixStays(word[1..], rest);
      assert word == [word[0]] + word[1..];
      Assoc([word[0]], word[1..], CodedAll(rest));
    }
  }

  lemma PrefixStep(s: string, word: string)
    requires s != "" && word != ""
    ensures StartsWith(s, word) <==> s[0] == word[0] && StartsWith(s[1..], word[1..])
  {
    if StartsWith(s, word) {
      assert s[..|word|][0] == word[0];
      assert s[1..][..|word| - 1] == s[..|word|][1..];
    }
    if s[0] == word[0] && StartsWith(s[1..], word[1..]) {
      assert s[..|word|] == [s[0]] + s[1..][..|word| - 1];
      assert word == [word[0]] + word[1..];
    }
  }

  lemma PlaceholderIsPlain()
    ensures AllPlain(INVITE_LINK_PLACEHOLDER)
  {
  }

  lemma AnchorSpelled(link: string)
    ensures SpellAll([Tag(AnchorTag(link))] + Texts(link) + [Tag(ANCHOR_END_TAG)]) == Anchor(link)
  {
    EscapeHtmlIsOnePass(link);
    SpellTexts(link);
    SpellOne(Tag(AnchorTag(link)));
    SpellOne(Tag(ANCHOR_END_TAG));
    SpellConcat([Tag(AnchorTag(link))], Texts(link));
    SpellConcat([Tag(AnchorTag(link))] + Texts(link), [Tag(ANCHOR_END_TAG)]);
  }

  lemma {:induction false} LinksInserted(block: string, link: string)
    ensures Replace(CodedAll(block), INVITE_LINK_PLACEHOLDER, Anchor(link)) == SpellAll(BlockPieces(block, link))
    decreases |block|
  {
    var hole := INVITE_LINK_PLACEHOLDER;
    PlaceholderIsPlain();
    if block == "" {
    } else if StartsWith(block, hole) {
      var rest := block[|hole|..];
      PlainPrefix(block, hole);
      LinksInserted(rest, link);
      AnchorSpelled(link);
      SpellConcat([Tag(AnchorTag(link))] + Texts(link) + [Tag(ANCHOR_END_TAG)], BlockPieces(rest, link));
      assert CodedAll(block)[|hole|..] == CodedAll(rest);
    } else {
      PlainPrefix(block, hole);
      LinksInserted(block[1..], link);
      CodedStart(block[0]);
      StepOverChar(block, hole, Anchor(link));
      SpellOverChar(block, link);
    }
  }

  /** A character that does not open the word is copied with whatever codes it. */
  lemma StepOverChar(text: string, word: string, sub: string)
    requires text != "" && word != "" && !StartsWith(CodedAll(text), word)
    requires Coded(word[0]) == [word[0]] && (text[0] != word[0] ==> word[0] !in Coded(text[0]))
    ensures Replace(CodedAll(text), word, sub) == Coded(text[0]) + Replace(CodedAll(text[1..]), word, sub)
  {
    if text[0] == word[0] {
      assert CodedAll(text)[1..] == CodedAll(text[1..]);
    } else {
      ReplaceSkips(Coded(text[0]), CodedAll(text[1..]), word, sub);
    }
  }

  lemma SpellOverChar(block: string, link: string)
    requires block != "" && !StartsWith(block, INVITE_LINK_PLACEHOLDER)
    ensures SpellAll(BlockPieces(block, link)) == Coded(block[0]) + SpellAll(BlockPieces(block[1..], link))
  {
    var p := if block[0] == '\n' then Tag(BREAK_TAG) else Text(block[0]);
    SpellOne(p);
    SpellConcat([p], BlockPieces(block[1..], link));
  }

  lemma BlockSpelled(block: string, link: string)
    ensures RenderBlock(block, link) == SpellAll(BlockPieces(block, link))
  {
    EscapeHtmlIsOnePass(block);
    SplitJoin(EscapeHtml(block), "\n", Markup(BREAK_TAG));
    BreaksInserted(block);
    PlaceholderIsPlain();
    PlainStays(INVITE_LINK_PLACEHOLDER);
    EscapeHtmlIsOnePass(INVITE_LINK_PLACEHOLDER);
    SplitJoin(CodedAll(block), INVITE_LINK_PLACEHOLDER, Anchor(link));
    LinksInserted(block, link);
  }

  lemma ParagraphSpelled(block: string, link: string)
    ensures SpellAll(ParagraphPieces(block, link)) == RenderParagraph(block, link)
  {
    var open, close := Tag(PARAGRAPH_TAG), Tag(PARAGRAPH_END_TAG);
    BlockSpelled(block, link);
    SpellOne(open);
    SpellOne(close);
    SpellConcat([open], BlockPieces(block, link));
    SpellConcat([open] + BlockPieces(block, link), [close]);
  }

  lemma JoinCons(part: string, rest: seq<string>, glue: string)
    requires rest != []
    ensures Join([part] + rest, glue) == part + (glue + Join(rest, glue))
  {
    assert ([part] + rest)[1..] == rest;
    Assoc(part, glue, Join(rest, glue));
  }

  lemma {:induction false} BodySpelled(blocks: seq<string>, link: string)
    ensures Join(RenderBlocks(blocks, link), "\n") == SpellAll(BodyPieces(blocks, link))
  {
    if blocks != [] {
      var first := ParagraphPieces(blocks[0], link);
      var parts := RenderBlocks(blocks, link);
      ParagraphSpelled(blocks[0], link);
      assert parts[0] == SpellAll(first);
      if |blocks| == 1 {
        assert first + [] == first;
      } else {
        var rest := BodyPieces(blocks[1..], link);
        BodySpelled(blocks[1..], link);
        assert parts[1..] == RenderBlocks(blocks[1..], link);
        assert parts == [parts[0]] + parts[1..];
        JoinCons(parts[0], parts[1..], "\n");
        NewlineBetween(first, rest);
      }
    }
  }

  lemma NewlineBetween(first: seq<Piece>, rest: seq<Piece>)
    ensures SpellAll(first + ([Text('\n')] + rest)) == SpellAll(first) + ("\n" + SpellAll(rest))
  {
    SpellOne(Text('\n'));
    SpellConcat([Text('\n')], rest);
    SpellConcat(first, [Text('\n')] + rest);
  }
}
