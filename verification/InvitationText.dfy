/**
 * The text and HTML parts of an invitation email (src/invitation/invitation-text.ts).
 * The HTML part is read back by a small decoder, `HtmlToText`, that knows
 * nothing about the renderer beyond the five entities and the tags.
 */
module InvitationText {
  import opened Strings

  const INVITE_LINK_PLACEHOLDER := "{inviteLink}"
  // The renderer's tags, without their closing bracket.
  const PARAGRAPH_TAG := "<p style=\"" + "margin:" + "0 0 16px 0;\""
  const PARAGRAPH_END_TAG := "</p"
  const BREAK_TAG := "<br/"
  const ANCHOR_END_TAG := "</a"
  const ANCHOR_HREF := "<a href=\""
  const ANCHOR_STYLE := "\" style=\"" + "color:#007bff;" + "word-break:" + "break-all;\""

  function Markup(tag: string): string {
    tag + ">"
  }

  // ---------------------------------------------------------------------
  // Replacements and splits
  // ---------------------------------------------------------------------

  /** `s.replace(/c/g, sub)` for a one-character pattern. */
  function ReplaceChar(s: string, c: char, sub: string): (r: string)
    ensures s != "" && sub != "" ==> r != ""
  {
    if s == "" then ""
    else (if s[0] == c then sub else [s[0]]) + ReplaceChar(s[1..], c, sub)
  }

  function SkipNewlines(s: string): (r: string)
    ensures |r| <= |s|
    ensures r == "" || r[0] != '\n'
    ensures s != "" && s[0] == '\n' ==> |r| < |s|
  {
    if s != "" && s[0] == '\n' then SkipNewlines(s[1..]) else s
  }

  /** `s.split(/\n{2,}/)`: a greedy run of two or more newlines separates. */
  function SplitBlankLines(s: string): (blocks: seq<string>)
    ensures |blocks| > 0
    decreases |s|
  {
    if s == "" then [""]
    else if StartsWith(s, "\n\n") then [""] + SplitBlankLines(SkipNewlines(s))
    else
      var rest := SplitBlankLines(s[1..]);
      [[s[0]] + rest[0]] + rest[1..]
  }

  /** `s.replace(/\r\n?/g, '\n')`. */
  function UnixNewlines(s: string): string
    decreases |s|
  {
    if s == "" then ""
    else if StartsWith(s, "\r\n") then "\n" + UnixNewlines(s[2..])
    else (if s[0] == '\r' then "\n" else [s[0]]) + UnixNewlines(s[1..])
  }

  // ---------------------------------------------------------------------
  // The module's functions
  // ---------------------------------------------------------------------

  function EscapeHtml(value: string): string {
    var s1 := ReplaceChar(value, '&', "&amp;");
    var s2 := ReplaceChar(s1, '<', "&lt;");
    var s3 := ReplaceChar(s2, '>', "&gt;");
    var s4 := ReplaceChar(s3, '\"', "&quot;");
    ReplaceChar(s4, '\'', "&#39;")
  }

  function NormalizeText(value: string): string {
    TrimEnd(TrimStart(UnixNewlines(value)))
  }

  function CountPlaceholders(value: string): int {
    |Split(value, INVITE_LINK_PLACEHOLDER)| - 1
  }

  function Anchor(link: string): string {
    Markup(ANCHOR_HREF + EscapeHtml(link) + ANCHOR_STYLE) + EscapeHtml(link) + Markup(ANCHOR_END_TAG)
  }

  function RenderBlock(block: string, link: string): string {
    var broken := Join(Split(EscapeHtml(block), "\n"), Markup(BREAK_TAG));
    Join(Split(broken, EscapeHtml(INVITE_LINK_PLACEHOLDER)), Anchor(link))
  }

  function RenderParagraph(block: string, link: string): string {
    Markup(PARAGRAPH_TAG) + RenderBlock(block, link) + Markup(PARAGRAPH_END_TAG)
  }

  function RenderBlocks(blocks: seq<string>, link: string): (parts: seq<string>)
    ensures |parts| == |blocks|
  {
    if blocks == [] then [] else [RenderParagraph(blocks[0], link)] + RenderBlocks(blocks[1..], link)
  }

  function RenderInvitationHtmlBody(body: string, link: string): string {
    Join(RenderBlocks(SplitBlankLines(NormalizeText(body)), link), "\n")
  }

  function RenderInvitationTextBody(body: string, link: string): string {
    Join(Split(NormalizeText(body), INVITE_LINK_PLACEHOLDER), link)
  }

  // ---------------------------------------------------------------------
  // Reference definitions
  // ---------------------------------------------------------------------

  function Entity(c: char): string {
    match c
    case '&' => "&amp;"
    case '<' => "&lt;"
    case '>' => "&gt;"
    case '\"' => "&quot;"
    case '\'' => "&#39;"
    case _ => [c]
  }

  /** One pass over the characters. */
  function Escaped(s: string): string {
    if s == "" then "" else Entity(s[0]) + Escaped(s[1..])
  }

  /** The position of the first `c`, or the length. */
  function IndexOf(s: string, c: char): (i: nat)
    ensures i <= |s|
    ensures i < |s| ==> s[i] == c
    ensures forall j :: 0 <= j < i ==> s[j] != c
  {
    if s == "" || s[0] == c then 0 else 1 + IndexOf(s[1..], c)
  }

  function EntityValue(name: string): string {
    if name == "&amp" then "&" else if name == "&lt" then "<" else if name == "&gt" then ">"
    else if name == "&quot" then "\"" else if name == "&#39" then "'" else ""
  }

  /** What a tag, taken without its closing bracket, contributes to the text. */
  function TagValue(tag: string): string {
    if tag == "<br/" then "\n" else if tag == "</p" then "\n" else ""
  }

  /** Tags and entities are replaced by what they show; a paragraph ends its line. */
  function Decode(html: string): string
    decreases |html|
  {
    if html == "" then ""
    else if html[0] == '<' && IndexOf(html, '>') < |html| then
      var end := IndexOf(html, '>');
      TagValue(html[..end]) + Decode(html[end + 1..])
    else if html[0] == '&' && IndexOf(html, ';') < |html| then
      var end := IndexOf(html, ';');
      EntityValue(html[..end]) + Decode(html[end + 1..])
    else [html[0]] + Decode(html[1..])
  }

  /** Without the newline that ends the last paragraph. */
  function HtmlToText(html: string): string {
    var text := Decode(html);
    if text == "" then text else text[..|text| - 1]
  }

  /** Every run of two or more newlines becomes exactly two. */
  function CollapseBlankLines(s: string): string
    decreases |s|
  {
    if s == "" then ""
    else if StartsWith(s, "\n\n") then "\n\n" + CollapseBlankLines(SkipNewlines(s))
    else [s[0]] + CollapseBlankLines(s[1..])
  }

  function Count(s: string, c: char): nat {
    if s == "" then 0 else (if s[0] == c then 1 else 0) + Count(s[1..], c)
  }

  /** The tags of a piece of HTML, in order. */
  function Tags(html: string): seq<string>
    decreases |html|
  {
    if html == "" then []
    else if html[0] == '<' && IndexOf(html, '>') < |html| then
      var end := IndexOf(html, '>');
      [html[..end + 1]] + Tags(html[end + 1..])
    else Tags(html[1..])
  }

  // ---------------------------------------------------------------------
  // Escaping
  // ---------------------------------------------------------------------

  lemma {:induction false} ReplaceCharConcat(a: string, b: string, c: char, sub: string)
    ensures ReplaceChar(a + b, c, sub) == ReplaceChar(a, c, sub) + ReplaceChar(b, c, sub)
  {
    if a == "" {
      assert a + b == b;
    } else {
      assert (a + b)[1..] == a[1..] + b;
      ReplaceCharConcat(a[1..], b, c, sub);
    }
  }

  lemma {:induction false} EscapeHtmlConcat(a: string, b: string)
    ensures EscapeHtml(a + b) == EscapeHtml(a) + EscapeHtml(b)
  {
    var a1, b1 := ReplaceChar(a, '&', "&amp;"), ReplaceChar(b, '&', "&amp;");
    var a2, b2 := ReplaceChar(a1, '<', "&lt;"), ReplaceChar(b1, '<', "&lt;");
    var a3, b3 := ReplaceChar(a2, '>', "&gt;"), ReplaceChar(b2, '>', "&gt;");
    var a4, b4 := ReplaceChar(a3, '\"', "&quot;"), ReplaceChar(b3, '\"', "&quot;");
    ReplaceCharConcat(a, b, '&', "&amp;");
    ReplaceCharConcat(a1, b1, '<', "&lt;");
    ReplaceCharConcat(a2, b2, '>', "&gt;");
    ReplaceCharConcat(a3, b3, '\"', "&quot;");
    ReplaceCharConcat(a4, b4, '\'', "&#39;");
  }

  lemma {:induction false} ReplaceCharAbsent(s: string, c: char, sub: string)
    requires c !in s
    ensures ReplaceChar(s, c, sub) == s
  {
    if s != "" {
      ReplaceCharAbsent(s[1..], c, sub);
      assert s == [s[0]] + s[1..];
    }
  }

  lemma ReplaceOne(c: char, d: char, sub: string)
    ensures ReplaceChar([c], d, sub) == if c == d then sub else [c]
  {
    assert [c][1..] == "";
  }

  /** The replaces after the first, the second and so on. */
  function After1(s: string): string { After2(ReplaceChar(s, '<', "&lt;")) }
  function After2(s: string): string { After3(ReplaceChar(s, '>', "&gt;")) }
  function After3(s: string): string { After4(ReplaceChar(s, '\"', "&quot;")) }
  function After4(s: string): string { ReplaceChar(s, '\'', "&#39;") }

  predicate Inert(s: string) {
    '<' !in s && '>' !in s && '\"' !in s && '\'' !in s
  }

  lemma LaterReplacesKeep(s: string)
    requires Inert(s)
    ensures After1(s) == s && After2(s) == s && After3(s) == s && After4(s) == s
  {
    ReplaceCharAbsent(s, '<', "&lt;");
    ReplaceCharAbsent(s, '>', "&gt;");
    ReplaceCharAbsent(s, '\"', "&quot;");
    ReplaceCharAbsent(s, '\'', "&#39;");
  }

  lemma EntityIsInert(c: char)
    ensures Inert(Entity(c))
  {
  }

  /** On one character the replace that applies is not disturbed by the later ones. */
  lemma EscapeOneChar(c: char)
    ensures EscapeHtml([c]) == Entity(c)
  {
    var e := Entity(c);
    EntityIsInert(c);
    LaterReplacesKeep(e);
    ReplaceOne(c, '&', "&amp;");
    ReplaceOne(c, '<', "&lt;");
    ReplaceOne(c, '>', "&gt;");
    ReplaceOne(c, '\"', "&quot;");
    ReplaceOne(c, '\'', "&#39;");
    assert EscapeHtml([c]) == After1(if c == '&' then e else [c]);
  }

  /** The five chained replaces are a single pass over the characters. */
  lemma {:induction false} EscapeHtmlIsOnePass(s: string)
    ensures EscapeHtml(s) == Escaped(s)
  {
    if s == "" {
    } else {
      assert s == [s[0]] + s[1..];
      EscapeHtmlConcat([s[0]], s[1..]);
      EscapeOneChar(s[0]);
      EscapeHtmlIsOnePass(s[1..]);
    }
  }

  /** None of the five characters survives, apart from the ampersands of entities. */
  lemma {:induction false} EscapedIsInert(s: string)
    ensures Inert(Escaped(s))
  {
    if s != "" {
      EntityIsInert(s[0]);
      EscapedIsInert(s[1..]);
    }
  }

  lemma Assoc(a: string, b: string, c: string)
    ensures (a + b) + c == a + (b + c)
  {
  }

  lemma DecodeNamed(name: string, rest: string)
    requires name != "" && name[0] == '&' && ';' !in name
    ensures Decode(name + ";" + rest) == EntityValue(name) + Decode(rest)
  {
    var s := name + ";" + rest;
    var k := |name|;
    assert s[k] == ';' && s[0] == '&';
    assert IndexOf(s, ';') == k by {
      assert forall j :: 0 <= j < k ==> s[j] == name[j];
    }
    assert s[..k] == name;
    assert s[k + 1..] == rest;
  }

  /** Decoding one escaped character, wherever it stands. */
  lemma DecodeEntity(c: char, rest: string)
    ensures Decode(Entity(c) + rest) == [c] + Decode(rest)
  {
    match c
    case '&' => DecodeNamed("&amp", rest); assert Entity(c) == "&amp" + ";";
    case '<' => DecodeNamed("&lt", rest); assert Entity(c) == "&lt" + ";";
    case '>' => DecodeNamed("&gt", rest); assert Entity(c) == "&gt" + ";";
    case '\"' => DecodeNamed("&quot", rest); assert Entity(c) == "&quot" + ";";
    case '\'' => DecodeNamed("&#39", rest); assert Entity(c) == "&#39" + ";";
    case _ => assert ([c] + rest)[1..] == rest;
  }

  /** Escaping decodes back, so no two texts share an escaped form. */
  lemma {:induction false} DecodeEscaped(s: string, rest: string)
    ensures Decode(Escaped(s) + rest) == s + Decode(rest)
  {
    if s == "" {
      assert Escaped(s) + rest == rest;
    } else {
      Assoc(Entity(s[0]), Escaped(s[1..]), rest);
      DecodeEntity(s[0], Escaped(s[1..]) + rest);
      DecodeEscaped(s[1..], rest);
      Assoc([s[0]], s[1..], Decode(rest));
      assert s == [s[0]] + s[1..];
    }
  }
}
