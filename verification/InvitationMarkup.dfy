/** Every `<` of the HTML part is the renderer's own, and anchors match placeholders one for one. */
module InvitationMarkup {
  import opened Strings
  import opened InvitationText
  import opened InvitationRendering
  import opened InvitationMeaning

  function Occurrences(tags: seq<string>, tag: string): nat {
    if tags == [] then 0 else (if tags[0] == tag then 1 else 0) + Occurrences(tags[1..], tag)
  }

  /** Placeholders counted in one pass. */
  function Holes(s: string): nat
    decreases |s|
  {
    if s == "" then 0
    else if StartsWith(s, HOLE) then 1 + Holes(s[|HOLE|..])
    else Holes(s[1..])
  }

  function HolesIn(blocks: seq<string>): nat {
    if blocks == [] then 0 else Holes(blocks[0]) + HolesIn(blocks[1..])
  }

  lemma {:induction false} CountIsHoles(s: string)
    ensures CountPlaceholders(s) == Holes(s)
    decreases |s|
  {
    if s == "" {
    } else if StartsWith(s, HOLE) {
      CountIsHoles(s[|HOLE|..]);
    } else {
      CountIsHoles(s[1..]);
    }
  }

  lemma {:induction false} HolesSkip(x: string, rest: string)
    requires '{' !in x
    ensures Holes(x + rest) == Holes(rest)
  {
    if x == "" {
      assert x + rest == rest;
    } else {
      HoleOpens();
      PrefixStep(x + rest, HOLE);
      assert (x + rest)[1..] == x[1..] + rest;
      HolesSkip(x[1..], rest);
    }
  }

  lemma {:induction false} SkippedAreNewlines(s: string)
    ensures exists x: string :: '{' !in x && s == x + SkipNewlines(s)
  {
    if s != "" && s[0] == '\n' {
      SkippedAreNewlines(s[1..]);
      var x: string :| '{' !in x && s[1..] == x + SkipNewlines(s[1..]);
      assert s == (['\n'] + x) + SkipNewlines(s);
      assert '{' !in ['\n'] + x;
    } else {
      assert s == "" + s;
      assert '{' !in "";
    }
  }

  /** Splitting into blocks never cuts a placeholder. */
  lemma {:induction false} BlocksKeepHoles(s: string)
    ensures HolesIn(SplitBlankLines(s)) == Holes(s)
    decreases |s|
  {
    HoleOpens();
    TwoNewlines(s);
    if s == "" {
      assert SplitBlankLines(s)[1..] == [];
    } else if StartsWith(s, HOLE) {
      var rest := s[|HOLE|..];
      var r := SplitBlankLines(rest);
      BlocksKeepHoles(rest);
      assert s == HOLE + rest;
      SplitPrefix(HOLE, rest);
      assert (HOLE + r[0])[|HOLE|..] == r[0];
      assert ([HOLE + r[0]] + r[1..])[1..] == r[1..];
    } else if StartsWith(s, "\n\n") {
      BlocksKeepHoles(SkipNewlines(s));
      SkippedAreNewlines(s);
      var x: string :| '{' !in x && s == x + SkipNewlines(s);
      HolesSkip(x, SkipNewlines(s));
      assert ([""] + SplitBlankLines(SkipNewlines(s)))[1..] == SplitBlankLines(SkipNewlines(s));
    } else {
      var r := SplitBlankLines(s[1..]);
      BlocksKeepHoles(s[1..]);
      FirstBlockIsPrefix(s[1..]);
      assert [s[0]] + r[0] <= s;
      LongerStarts([s[0]] + r[0], s, HOLE);
      assert ([s[0]] + r[0])[1..] == r[0];
      assert ([[s[0]] + r[0]] + r[1..])[1..] == r[1..];
    }
  }

  // --- the tags of the pieces ------------------------------------------------------

  ghost predicate RendererTag(tag: string, link: string) {
    || tag == Markup(PARAGRAPH_TAG) || tag == Markup(PARAGRAPH_END_TAG) || tag == Markup(BREAK_TAG)
    || tag == Markup(AnchorTag(link)) || tag == Markup(ANCHOR_END_TAG)
  }

  ghost predicate AllRenderer(tags: seq<string>, link: string) {
    forall i :: 0 <= i < |tags| ==> RendererTag(tags[i], link)
  }

  lemma {:induction false} OccurrencesConcat(a: seq<string>, b: seq<string>, tag: string)
    ensures Occurrences(a + b, tag) == Occurrences(a, tag) + Occurrences(b, tag)
  {
    if a == [] {
      assert a + b == b;
    } else {
      assert (a + b)[1..] == a[1..] + b;
      OccurrencesConcat(a[1..], b, tag);
    }
  }

  lemma OccurrencesOne(t: string, tag: string)
    ensures Occurrences([t], tag) == if t == tag then 1 else 0
  {
    assert [t][1..] == [];
  }

  /** Only the anchor opens with `<a`. */
  lemma AnchorIsUnlike(link: string)
    ensures Markup(AnchorTag(link)) != Markup(PARAGRAPH_TAG) && Markup(AnchorTag(link)) != Markup(PARAGRAPH_END_TAG)
    ensures Markup(AnchorTag(link)) != Markup(BREAK_TAG) && Markup(AnchorTag(link)) != Markup(ANCHOR_END_TAG)
  {
    AnchorHrefOk();
    assert Markup(AnchorTag(link))[1] == 'a';
    assert Markup(PARAGRAPH_TAG)[1] == 'p';
  }

  lemma TagsBetween(open: string, inner: seq<Piece>, close: string)
    ensures TagsIn([Tag(open)] + inner + [Tag(close)]) == [Markup(open)] + TagsIn(inner) + [Markup(close)]
  {
    SpellOne(Tag(open));
    SpellOne(Tag(close));
    TagsConcat([Tag(open)], inner);
    TagsConcat([Tag(open)] + inner, [Tag(close)]);
  }

  lemma AnchorTags(link: string)
    ensures TagsIn([Tag(AnchorTag(link))] + Texts(link) + [Tag(ANCHOR_END_TAG)])
         == [Markup(AnchorTag(link)), Markup(ANCHOR_END_TAG)]
  {
    SpellTexts(link);
    TagsBetween(AnchorTag(link), Texts(link), ANCHOR_END_TAG);
  }

  lemma {:induction false} BlockTags(block: string, link: string)
    ensures AllRenderer(TagsIn(BlockPieces(block, link)), link)
    ensures Occurrences(TagsIn(BlockPieces(block, link)), Markup(AnchorTag(link))) == Holes(block)
    decreases |block|
  {
    var anchor := Markup(AnchorTag(link));
    AnchorIsUnlike(link);
    if block == "" {
    } else if StartsWith(block, HOLE) {
      var rest := BlockPieces(block[|HOLE|..], link);
      BlockTags(block[|HOLE|..], link);
      AnchorTags(link);
      TagsConcat([Tag(AnchorTag(link))] + Texts(link) + [Tag(ANCHOR_END_TAG)], rest);
      assert [anchor, Markup(ANCHOR_END_TAG)] == [anchor] + [Markup(ANCHOR_END_TAG)];
      OccurrencesOne(anchor, anchor);
      OccurrencesOne(Markup(ANCHOR_END_TAG), anchor);
      OccurrencesConcat([anchor], [Markup(ANCHOR_END_TAG)], anchor);
      OccurrencesConcat([anchor, Markup(ANCHOR_END_TAG)], TagsIn(rest), anchor);
    } else {
      var p := if block[0] == '\n' then Tag(BREAK_TAG) else Text(block[0]);
      var rest := BlockPieces(block[1..], link);
      BlockTags(block[1..], link);
      SpellOne(p);
      TagsConcat([p], rest);
      OccurrencesOne(Markup(BREAK_TAG), anchor);
      OccurrencesConcat(TagsIn([p]), TagsIn(rest), anchor);
    }
  }

  lemma OccurrencesBetween(open: string, inner: seq<string>, close: string, tag: string)
    requires open != tag && close != tag
    ensures Occurrences([open] + inner + [close], tag) == Occurrences(inner, tag)
  {
    OccurrencesOne(open, tag);
    OccurrencesOne(close, tag);
    OccurrencesConcat([open], inner, tag);
    OccurrencesConcat([open] + inner, [close], tag);
  }

  lemma ParagraphTags(block: string, link: string)
    ensures AllRenderer(TagsIn(ParagraphPieces(block, link)), link)
    ensures Occurrences(TagsIn(ParagraphPieces(block, link)), Markup(AnchorTag(link))) == Holes(block)
  {
    var inner := BlockPieces(block, link);
    AnchorIsUnlike(link);
    BlockTags(block, link);
    TagsBetween(PARAGRAPH_TAG, inner, PARAGRAPH_END_TAG);
    OccurrencesBetween(Markup(PARAGRAPH_TAG), TagsIn(inner), Markup(PARAGRAPH_END_TAG), Markup(AnchorTag(link)));
  }

  lemma {:induction false} BodyTags(blocks: seq<string>, link: string)
    ensures AllRenderer(TagsIn(BodyPieces(blocks, link)), link)
    ensures Occurrences(TagsIn(BodyPieces(blocks, link)), Markup(AnchorTag(link))) == HolesIn(blocks)
  {
    if blocks != [] {
      var first := ParagraphPieces(blocks[0], link);
      ParagraphTags(blocks[0], link);
      if |blocks| == 1 {
        assert first + [] == first;
        assert blocks[1..] == [];
      } else {
        var rest := BodyPieces(blocks[1..], link);
        BodyTags(blocks[1..], link);
        SpellOne(Text('\n'));
        TagsConcat([Text('\n')], rest);
        TagsConcat(first, [Text('\n')] + rest);
        assert TagsIn([Text('\n')] + rest) == TagsIn(rest);
        OccurrencesConcat(TagsIn(first), TagsIn(rest), Markup(AnchorTag(link)));
      }
    }
  }

  /**
   * For every body and link: the tags of the HTML part are all the renderer's,
   * every `<` opens one of them, and there is one anchor per placeholder.
   */
  lemma MarkupIsTheRenderers(body: string, link: string)
    ensures var html := RenderInvitationHtmlBody(body, link);
      && AllRenderer(Tags(html), link)
      && Count(html, '<') == |Tags(html)|
      && Occurrences(Tags(html), Markup(AnchorTag(link))) == CountPlaceholders(NormalizeText(body))
  {
    var s := NormalizeText(body);
    var blocks := SplitBlankLines(s);
    BodySpelled(blocks, link);
    BodyPiecesWellFormed(blocks, link);
    TagsSpelled(BodyPieces(blocks, link));
    BracketsSpelled(BodyPieces(blocks, link));
    BodyTags(blocks, link);
    BlocksKeepHoles(s);
    CountIsHoles(s);
  }
}
