/** The two parts of an invitation email agree, and the HTML part carries only the renderer's markup. */
module InvitationMeaning {
  import opened Strings
  import opened InvitationText
  import opened InvitationRendering

  const HOLE := INVITE_LINK_PLACEHOLDER

  /** The text of a block: the link stands where the placeholder stood. */
  function Filled(s: string, link: string): string {
    Replace(s, HOLE, link)
  }

  /** Paragraphs as text: a blank line between them, a newline at the end. */
  function Lines(blocks: seq<string>, link: string): string {
    if blocks == [] then ""
    else if |blocks| == 1 then Filled(blocks[0], link) + "\n"
    else Filled(blocks[0], link) + ("\n\n" + Lines(blocks[1..], link))
  }

  // --- what the pieces show -----------------------------------------------------

  lemma Between(open: Piece, inner: seq<Piece>, close: Piece)
    ensures ShownAll([open] + inner + [close]) == Shown(open) + ShownAll(inner) + Shown(close)
  {
    SpellOne(open);
    SpellOne(close);
    ShownConcat([open], inner);
    ShownConcat([open] + inner, [close]);
  }

  lemma AnchorShows(link: string)
    ensures ShownAll([Tag(AnchorTag(link))] + Texts(link) + [Tag(ANCHOR_END_TAG)]) == link
  {
    AnchorTagIsTag(link);
    SpellTexts(link);
    Between(Tag(AnchorTag(link)), Texts(link), Tag(ANCHOR_END_TAG));
  }

  lemma {:induction false} BlockShows(block: string, link: string)
    ensures ShownAll(BlockPieces(block, link)) == Filled(block, link)
    decreases |block|
  {
    if block == "" {
    } else if StartsWith(block, HOLE) {
      var rest := block[|HOLE|..];
      BlockShows(rest, link);
      AnchorShows(link);
      ShownConcat([Tag(AnchorTag(link))] + Texts(link) + [Tag(ANCHOR_END_TAG)], BlockPieces(rest, link));
    } else {
      var p := if block[0] == '\n' then Tag(BREAK_TAG) else Text(block[0]);
      BlockShows(block[1..], link);
      SpellOne(p);
      ShownConcat([p], BlockPieces(block[1..], link));
    }
  }

  lemma ParagraphTagsShow()
    ensures Shown(Tag(PARAGRAPH_TAG)) == "" && Shown(Tag(PARAGRAPH_END_TAG)) == "\n"
  {
    assert PARAGRAPH_TAG[1] == 'p';
  }

  lemma ParagraphShows(block: string, link: string)
    ensures ShownAll(ParagraphPieces(block, link)) == Filled(block, link) + "\n"
  {
    BlockShows(block, link);
    ParagraphTagsShow();
    Between(Tag(PARAGRAPH_TAG), BlockPieces(block, link), Tag(PARAGRAPH_END_TAG));
  }

  lemma {:induction false} BodyShows(blocks: seq<string>, link: string)
    ensures ShownAll(BodyPieces(blocks, link)) == Lines(blocks, link)
  {
    if blocks != [] {
      var first := ParagraphPieces(blocks[0], link);
      ParagraphShows(blocks[0], link);
      if |blocks| == 1 {
        assert first + [] == first;
      } else {
        var rest := BodyPieces(blocks[1..], link);
        BodyShows(blocks[1..], link);
        BlankLineBetween(first, rest, Filled(blocks[0], link));
      }
    }
  }

  lemma BlankLineBetween(first: seq<Piece>, rest: seq<Piece>, text: string)
    requires ShownAll(first) == text + "\n"
    ensures ShownAll(first + ([Text('\n')] + rest)) == text + ("\n\n" + ShownAll(rest))
  {
    SpellOne(Text('\n'));
    ShownConcat([Text('\n')], rest);
    ShownConcat(first, [Text('\n')] + rest);
    TwoBreaks(text, ShownAll(rest));
  }

  lemma TwoBreaks(text: string, rest: string)
    ensures text + "\n" + ("\n" + rest) == text + ("\n\n" + rest)
  {
    Assoc(text, "\n", "\n" + rest);
    Assoc("\n", "\n", rest);
  }

  // --- blank lines --------------------------------------------------------------

  /** A link that is a real address: not empty and on one line. */
  predicate OneLine(link: string) {
    link != "" && '\n' !in link
  }

  lemma HoleOpens()
    ensures |HOLE| > 0 && HOLE[0] == '{' && '\n' !in HOLE
  {
  }

  lemma FilledStart(s: string, link: string)
    requires OneLine(link) && s != ""
    ensures Filled(s, link) != "" && (Filled(s, link)[0] == '\n' <==> s[0] == '\n')
  {
    HoleOpens();
    if StartsWith(s, HOLE) {
      PrefixStep(s, HOLE);
      assert Filled(s, link)[0] == link[0];
    }
  }

  lemma FilledNewline(s: string, link: string)
    requires s != "" && s[0] == '\n'
    ensures Filled(s, link) == "\n" + Filled(s[1..], link)
  {
    HoleOpens();
    if StartsWith(s, HOLE) { PrefixStep(s, HOLE); }
  }

  lemma {:induction false} FilledSkips(s: string, link: string)
    requires OneLine(link)
    ensures SkipNewlines(Filled(s, link)) == Filled(SkipNewlines(s), link)
  {
    if s == "" {
    } else if s[0] == '\n' {
      FilledNewline(s, link);
      FilledSkips(s[1..], link);
      assert Filled(s, link)[1..] == Filled(s[1..], link);
    } else {
      FilledStart(s, link);
    }
  }

  lemma TwoNewlines(s: string)
    ensures StartsWith(s, "\n\n") <==> |s| >= 2 && s[0] == '\n' && s[1] == '\n'
  {
  }

  lemma {:induction false} CollapsePrefix(x: string, rest: string)
    requires '\n' !in x
    ensures CollapseBlankLines(x + rest) == x + CollapseBlankLines(rest)
  {
    if x == "" {
      assert x + rest == rest;
    } else {
      TwoNewlines(x + rest);
      assert (x + rest)[1..] == x[1..] + rest;
      CollapsePrefix(x[1..], rest);
      assert x == [x[0]] + x[1..];
    }
  }

  lemma {:induction false} SplitPrefix(x: string, rest: string)
    requires '\n' !in x
    ensures var r := SplitBlankLines(rest); SplitBlankLines(x + rest) == [x + r[0]] + r[1..]
  {
    var r := SplitBlankLines(rest);
    if x == "" {
      assert x + rest == rest && x + r[0] == r[0];
    } else {
      TwoNewlines(x + rest);
      assert (x + rest)[1..] == x[1..] + rest;
      SplitPrefix(x[1..], rest);
      assert [x[0]] + (x[1..] + r[0]) == x + r[0];
    }
  }

  lemma {:induction false} FirstBlockIsPrefix(s: string)
    ensures SplitBlankLines(s)[0] <= s
    decreases |s|
  {
    if s != "" && !StartsWith(s, "\n\n") { FirstBlockIsPrefix(s[1..]); }
  }

  lemma LinesPrefix(x: string, x': string, blocks: seq<string>, link: string)
    requires blocks != [] && Filled(x + blocks[0], link) == x' + Filled(blocks[0], link)
    ensures Lines([x + blocks[0]] + blocks[1..], link) == x' + Lines(blocks, link)
  {
    var longer := [x + blocks[0]] + blocks[1..];
    assert longer[1..] == blocks[1..];
    var tail := if |blocks| == 1 then "\n" else "\n\n" + Lines(blocks[1..], link);
    assert Lines(blocks, link) == Filled(blocks[0], link) + tail;
    Assoc(x', Filled(blocks[0], link), tail);
  }

  /** Collapsing the filled text is filling each block and separating the blocks by one blank line. */
  lemma {:induction false} CollapseIsLines(s: string, link: string)
    requires OneLine(link)
    ensures CollapseBlankLines(Filled(s, link)) + "\n" == Lines(SplitBlankLines(s), link)
    decreases |s|
  {
    HoleOpens();
    TwoNewlines(s);
    if s == "" {
    } else if StartsWith(s, HOLE) {
      CollapseAtHole(s, link);
    } else if StartsWith(s, "\n\n") {
      CollapseAtRun(s, link);
    } else {
      CollapseAtChar(s, link);
    }
  }

  lemma {:induction false} CollapseAtHole(s: string, link: string)
    requires OneLine(link) && StartsWith(s, HOLE)
    ensures CollapseBlankLines(Filled(s, link)) + "\n" == Lines(SplitBlankLines(s), link)
    decreases |s|, 0
  {
    HoleOpens();
    var rest := s[|HOLE|..];
    var r := SplitBlankLines(rest);
    assert s == HOLE + rest;
    CollapseIsLines(rest, link);
    CollapsePrefix(link, Filled(rest, link));
    SplitPrefix(HOLE, rest);
    assert (HOLE + r[0])[|HOLE|..] == r[0];
    LinesPrefix(HOLE, link, r, link);
    Assoc(link, CollapseBlankLines(Filled(rest, link)), "\n");
  }

  lemma {:induction false} CollapseAtRun(s: string, link: string)
    requires OneLine(link) && StartsWith(s, "\n\n")
    ensures CollapseBlankLines(Filled(s, link)) + "\n" == Lines(SplitBlankLines(s), link)
    decreases |s|, 0
  {
    TwoNewlines(s);
    var rest := SkipNewlines(s);
    var filled := Filled(s, link);
    CollapseIsLines(rest, link);
    FilledSkips(s, link);
    FilledNewline(s, link);
    FilledNewline(s[1..], link);
    TwoNewlines(filled);
    assert Filled("", link) == "";
    assert ([""] + SplitBlankLines(rest))[1..] == SplitBlankLines(rest);
    Assoc("\n\n", CollapseBlankLines(Filled(rest, link)), "\n");
  }

  lemma {:induction false} CollapseAtChar(s: string, link: string)
    requires OneLine(link) && s != "" && !StartsWith(s, HOLE) && !StartsWith(s, "\n\n")
    ensures CollapseBlankLines(Filled(s, link)) + "\n" == Lines(SplitBlankLines(s), link)
    decreases |s|, 0
  {
    var c, rest := s[0], s[1..];
    var r := SplitBlankLines(rest);
    CollapseIsLines(rest, link);
    NoRunAfterFilling(s, link);
    FirstBlockIsPrefix(rest);
    assert [c] + r[0] <= s;
    LongerStarts([c] + r[0], s, HOLE);
    assert ([c] + r[0])[1..] == r[0];
    LinesPrefix([c], [c], r, link);
    Assoc([c], CollapseBlankLines(Filled(rest, link)), "\n");
  }

  lemma LongerStarts(a: string, s: string, word: string)
    requires a <= s
    ensures StartsWith(a, word) ==> StartsWith(s, word)
  {
  }

  lemma NoRunAfterFilling(s: string, link: string)
    requires OneLine(link) && s != "" && !StartsWith(s, HOLE) && !StartsWith(s, "\n\n")
    ensures CollapseBlankLines(Filled(s, link)) == [s[0]] + CollapseBlankLines(Filled(s[1..], link))
  {
    var filled := Filled(s, link);
    assert filled == [s[0]] + Filled(s[1..], link);
    assert filled[1..] == Filled(s[1..], link);
    TwoNewlines(s);
    TwoNewlines(filled);
    if s[1..] != "" { FilledStart(s[1..], link); }
  }

  /**
   * For every body and every link on one line, undoing the HTML part gives the
   * text part with each run of two or more newlines reduced to two.
   */
  lemma HtmlSaysTheText(body: string, link: string)
    requires OneLine(link)
    ensures HtmlToText(RenderInvitationHtmlBody(body, link)) == CollapseBlankLines(RenderInvitationTextBody(body, link))
  {
    var s := NormalizeText(body);
    HtmlShowsLines(body, link);
    SplitJoin(s, HOLE, link);
    CollapseIsLines(s, link);
  }

  lemma HtmlShowsLines(body: string, link: string)
    ensures Decode(RenderInvitationHtmlBody(body, link)) == Lines(SplitBlankLines(NormalizeText(body)), link)
  {
    var blocks := SplitBlankLines(NormalizeText(body));
    BodySpelled(blocks, link);
    BodyPiecesWellFormed(blocks, link);
    DecodeSpelled(BodyPieces(blocks, link));
    BodyShows(blocks, link);
  }

  // --- the link must not be empty -------------------------------------------------

  lemma {:induction false} NoReturns(s: string)
    ensures '\r' !in UnixNewlines(s)
    decreases |s|
  {
    if s == "" {
    } else if StartsWith(s, "\r\n") {
      NoReturns(s[2..]);
    } else {
      NoReturns(s[1..]);
    }
  }

  lemma {:induction false} UnixNewlinesKeep(s: string)
    requires '\r' !in s
    ensures UnixNewlines(s) == s
    decreases |s|
  {
    if s != "" {
      if StartsWith(s, "\r\n") { PrefixStep(s, "\r\n"); }
      UnixNewlinesKeep(s[1..]);
      assert s == [s[0]] + s[1..];
    }
  }

  lemma {:induction false} TrimStartIsSuffix(s: string)
    ensures var t := TrimStart(s); |t| <= |s| && t == s[|s| - |t|..] && (t == "" || !IsSpace(t[0]))
  {
    if s != "" && IsSpace(s[0]) { TrimStartIsSuffix(s[1..]); }
  }

  lemma {:induction false} TrimEndIsPrefix(s: string)
    ensures var t := TrimEnd(s); |t| <= |s| && t == s[..|t|] && (t == "" || !IsSpace(t[|t| - 1]))
  {
    if s != "" && IsSpace(s[|s| - 1]) { TrimEndIsPrefix(s[..|s| - 1]); }
  }

  predicate Normal(s: string) {
    '\r' !in s && (s == "" || (!IsSpace(s[0]) && !IsSpace(s[|s| - 1])))
  }

  /** Normalised text is fixed: the stored body renders as the submitted one would. */
  lemma NormalizeTextIdempotent(value: string)
    ensures Normal(NormalizeText(value)) && NormalizeText(NormalizeText(value)) == NormalizeText(value)
  {
    var u := UnixNewlines(value);
    NoReturns(value);
    TrimStartIsSuffix(u);
    TrimEndIsPrefix(TrimStart(u));
    NormalIsFixed(NormalizeText(value));
  }

  lemma NormalIsFixed(s: string)
    requires Normal(s)
    ensures NormalizeText(s) == s
  {
    UnixNewlinesKeep(s);
  }

  predicate Bare(x: string) {
    OneLine(x) && '{' !in x
  }

  /** A body with the placeholder alone between two blank lines. */
  function Sandwich(x: string, y: string): string {
    x + ("\n\n" + (HOLE + ("\n\n" + y)))
  }

  lemma SandwichBlocks(x: string, y: string)
    requires Bare(x) && Bare(y)
    ensures SplitBlankLines(Sandwich(x, y)) == [x, HOLE, y]
  {
    var t3 := "\n\n" + y;
    var t2 := HOLE + t3;
    HoleOpens();
    RunBefore(y, "");
    RunBefore(t2, "");
    SplitPrefix(x, "\n\n" + t2);
    SplitPrefix(HOLE, t3);
    SplitPrefix(y, "");
    assert y + "" == y && x + "" == x && HOLE + "" == HOLE;
  }

  lemma FilledHole(rest: string, link: string)
    ensures Filled(HOLE + rest, link) == link + Filled(rest, link)
  {
    assert (HOLE + rest)[|HOLE|..] == rest;
  }

  lemma FilledBare(x: string, rest: string, link: string)
    requires Bare(x)
    ensures Filled(x + rest, link) == x + Filled(rest, link)
  {
    HoleOpens();
    ReplaceSkips(x, rest, HOLE, link);
  }

  lemma SandwichFilled(x: string, y: string)
    requires Bare(x) && Bare(y)
    ensures Filled(Sandwich(x, y), "") == x + ("\n\n" + ("\n\n" + y))
  {
    var t3 := "\n\n" + y;
    var t2 := HOLE + t3;
    assert t2[0] == '{' by { HoleOpens(); }
    calc {
      Filled(Sandwich(x, y), "");
      { FilledBare(x, "\n\n" + t2, ""); }
      x + Filled("\n\n" + t2, "");
      { RunBefore(t2, ""); }
      x + ("\n\n" + Filled(t2, ""));
      { FilledHole(t3, ""); }
      x + ("\n\n" + ("" + Filled(t3, "")));
      { RunBefore(y, ""); }
      x + ("\n\n" + ("\n\n" + Filled(y, "")));
      { FilledBare(y, "", ""); assert y + "" == y; }
      x + ("\n\n" + ("\n\n" + y));
    }
  }

  lemma SandwichCollapses(x: string, y: string)
    requires Bare(x) && Bare(y)
    ensures CollapseBlankLines(x + ("\n\n" + ("\n\n" + y))) == x + ("\n\n" + y)
  {
    var run := "\n\n" + ("\n\n" + y);
    CollapsePrefix(x, run);
    TwoNewlines(run);
    SkipTwo("\n\n" + y);
    SkipTwo(y);
    CollapsePrefix(y, "");
    assert y + "" == y;
  }

  lemma SandwichShows(x: string, y: string)
    requires Bare(x) && Bare(y)
    ensures |Lines([x, HOLE, y], "")| == |x| + |y| + 5
  {
    HoleOpens();
    ReplaceSkips(x, "", HOLE, "");
    ReplaceSkips(y, "", HOLE, "");
    assert y + "" == y && x + "" == x;
    assert Filled(HOLE, "") == "" by { assert HOLE[|HOLE|..] == ""; assert HOLE[..|HOLE|] == HOLE; }
    LinesOfThree(x, HOLE, y);
  }

  /** Without a link, blank lines on both sides of the placeholder meet in the text part only. */
  lemma EmptyLinkMergesBlankLines(x: string, y: string)
    requires Bare(x) && Bare(y) && Normal(Sandwich(x, y))
    ensures HtmlToText(RenderInvitationHtmlBody(Sandwich(x, y), ""))
         != CollapseBlankLines(RenderInvitationTextBody(Sandwich(x, y), ""))
  {
    var body := Sandwich(x, y);
    NormalIsFixed(body);
    HtmlShowsLines(body, "");
    SandwichBlocks(x, y);
    SandwichShows(x, y);
    SplitJoin(body, HOLE, "");
    SandwichFilled(x, y);
    SandwichCollapses(x, y);
  }

  lemma SkipTwo(rest: string)
    ensures SkipNewlines("\n\n" + rest) == SkipNewlines(rest)
  {
    var s := "\n\n" + rest;
    assert s[1..] == "\n" + rest;
    assert s[1..][1..] == rest;
  }

  lemma RunBefore(rest: string, link: string)
    requires rest != "" && rest[0] != '\n'
    ensures SplitBlankLines("\n\n" + rest) == [""] + SplitBlankLines(rest)
    ensures Filled("\n\n" + rest, link) == "\n\n" + Filled(rest, link)
  {
    RunSplits(rest);
    RunStays(rest, link);
  }

  lemma RunSplits(rest: string)
    requires rest != "" && rest[0] != '\n'
    ensures SplitBlankLines("\n\n" + rest) == [""] + SplitBlankLines(rest)
  {
    TwoNewlines("\n\n" + rest);
    SkipTwo(rest);
  }

  lemma RunStays(rest: string, link: string)
    ensures Filled("\n\n" + rest, link) == "\n\n" + Filled(rest, link)
  {
    var s := "\n\n" + rest;
    assert s[1..] == "\n" + rest && s[1..][1..] == rest;
    FilledNewline(s, link);
    FilledNewline(s[1..], link);
    Assoc("\n", "\n", Filled(rest, link));
  }

  lemma LinesOfThree(x: string, y: string, z: string)
    ensures |Lines([x, y, z], "")| == |Filled(x, "")| + |Filled(y, "")| + |Filled(z, "")| + 5
  {
    assert [x, y, z][1..] == [y, z];
    assert [y, z][1..] == [z];
    assert Lines([z], "") == Filled(z, "") + "\n";
    assert Lines([y, z], "") == Filled(y, "") + ("\n\n" + Lines([z], ""));
  }

  /** For links on one line, the parts agree on every body exactly when the link is not empty. */
  lemma PartsAgreeExactly(link: string)
    requires '\n' !in link
    ensures (forall body: string ::
               HtmlToText(RenderInvitationHtmlBody(body, link)) == CollapseBlankLines(RenderInvitationTextBody(body, link)))
       <==> link != ""
  {
    if link != "" {
      forall body: string
        ensures HtmlToText(RenderInvitationHtmlBody(body, link)) == CollapseBlankLines(RenderInvitationTextBody(body, link))
      {
        HtmlSaysTheText(body, link);
      }
    } else {
      var x, y := "a", "b";
      var body := Sandwich(x, y);
      HoleOpens();
      assert body[0] == 'a' && body[|body| - 1] == 'b';
      assert '\r' !in HOLE;
      EmptyLinkMergesBlankLines(x, y);
    }
  }
}
