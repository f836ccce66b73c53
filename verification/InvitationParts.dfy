/** What normalising a body keeps, and what the text part and the anchor of the HTML part say. */
module InvitationParts {
  import opened Strings
  import opened InvitationText
  import opened InvitationRendering
  import opened InvitationMeaning

  // --- line ends ------------------------------------------------------------------

  /** What a character adds behind `before`: a return is a newline, and the newline of a return is not another. */
  function LineEnd(before: string, c: char): string {
    if c == '\n' && before != "" && before[|before| - 1] == '\r' then ""
    else if c == '\r' then "\n"
    else [c]
  }

  /** Line ends read from left to right, looking back. */
  function LookingBack(s: string): string {
    if s == "" then ""
    else
      var n := |s| - 1;
      LookingBack(s[..n]) + LineEnd(s[..n], s[n])
  }

  lemma ReturnNewline(s: string)
    ensures StartsWith(s, "\r\n") <==> |s| >= 2 && s[0] == '\r' && s[1] == '\n'
  {
  }

  lemma UnixPair(rest: string)
    ensures UnixNewlines("\r\n" + rest) == "\n" + UnixNewlines(rest)
  {
    assert ("\r\n" + rest)[2..] == rest;
  }

  lemma {:induction false} UnixAppend(s: string, c: char)
    ensures UnixNewlines(s + [c]) == UnixNewlines(s) + LineEnd(s, c)
    decreases |s|
  {
    ReturnNewline(s);
    ReturnNewline(s + [c]);
    if s == "" {
      assert s + [c] == [c] && [c][1..] == "";
    } else if StartsWith(s, "\r\n") {
      assert (s + [c])[2..] == s[2..] + [c];
      UnixAppend(s[2..], c);
      Assoc("\n", UnixNewlines(s[2..]), LineEnd(s, c));
    } else if |s| == 1 {
      assert s[1..] == "" && (s + [c])[1..] == [c] && [c][1..] == "" && (s + [c])[2..] == "";
    } else {
      assert (s + [c])[1..] == s[1..] + [c];
      UnixAppend(s[1..], c);
      var first := if s[0] == '\r' then "\n" else [s[0]];
      Assoc(first, UnixNewlines(s[1..]), LineEnd(s, c));
    }
  }

  /** `replace(/\r\n?/g, '\n')` gives one newline for each return, pair or newline. */
  lemma {:induction false} UnixNewlinesExactly(s: string)
    ensures UnixNewlines(s) == LookingBack(s)
  {
    if s != "" {
      var n := |s| - 1;
      UnixNewlinesExactly(s[..n]);
      UnixAppend(s[..n], s[n]);
      assert s == s[..n] + [s[n]];
    }
  }

  /** Windows line ends are undone: the text comes back as it was written. */
  lemma {:induction false} WindowsRoundTrip(text: string)
    requires '\r' !in text
    ensures UnixNewlines(ReplaceChar(text, '\n', "\r\n")) == text
  {
    if text != "" {
      WindowsRoundTrip(text[1..]);
      var rest := ReplaceChar(text[1..], '\n', "\r\n");
      assert text == [text[0]] + text[1..];
      if text[0] == '\n' {
        UnixPair(rest);
      } else {
        ReturnNewline([text[0]] + rest);
        assert ([text[0]] + rest)[1..] == rest;
      }
    }
  }

  /** Normalising cuts white space off both ends of the text with its line ends read, and nothing else. */
  lemma NormalizeTextExactly(value: string, r: string)
    ensures r == NormalizeText(value) <==> exists lead, tail :: Trimmed(LookingBack(value), r, lead, tail)
  {
    UnixNewlinesExactly(value);
    var s := LookingBack(value);
    if r == NormalizeText(value) {
      var lead, tail := TrimIsTrimmed(s);
    }
    if lead, tail :| Trimmed(s, r, lead, tail) {
      TrimmedIsTrim(s, r, lead, tail);
    }
  }

  // --- the text part -------------------------------------------------------------------

  ghost predicate Contains(s: string, word: string) {
    exists i :: 0 <= i <= |s| && StartsWith(s[i..], word)
  }

  /** The pieces between the placeholders of `s`, none of which holds one. */
  ghost predicate PartsAround(s: string, parts: seq<string>, word: string) {
    && parts != [] && Join(parts, word) == s
    && forall i :: 0 <= i < |parts| ==> !Contains(parts[i], word)
  }

  lemma {:induction false} SplitUndone(s: string, sep: string)
    requires sep != ""
    ensures Replace(s, sep, sep) == s
    decreases |s|
  {
    if s == "" {
    } else if StartsWith(s, sep) {
      SplitUndone(s[|sep|..], sep);
      assert s == s[..|sep|] + s[|sep|..];
    } else {
      SplitUndone(s[1..], sep);
      assert s == [s[0]] + s[1..];
    }
  }

  lemma {:induction false} SplitPartsAreClean(s: string, sep: string)
    requires sep != ""
    ensures Split(s, sep)[0] <= s
    ensures forall i :: 0 <= i < |Split(s, sep)| ==> !Contains(Split(s, sep)[i], sep)
    decreases |s|
  {
    NothingHolds(sep);
    if s == "" {
    } else if StartsWith(s, sep) {
      SplitPartsAreClean(s[|sep|..], sep);
    } else {
      var rest := Split(s[1..], sep);
      SplitPartsAreClean(s[1..], sep);
      LongerIsClean(s, rest[0], sep);
    }
  }

  lemma NothingHolds(sep: string)
    requires sep != ""
    ensures !Contains("", sep)
  {
  }

  lemma LongerIsClean(s: string, part: string, sep: string)
    requires sep != "" && s != "" && part <= s[1..] && !StartsWith(s, sep) && !Contains(part, sep)
    ensures !Contains([s[0]] + part, sep)
  {
    var longer := [s[0]] + part;
    forall i | 0 <= i <= |longer| ensures !StartsWith(longer[i..], sep) {
      if i == 0 {
        assert longer[0..] == longer <= s;
        LongerStarts(longer, s, sep);
      } else {
        assert longer[i..] == part[i - 1..];
      }
    }
  }

  /** The text part is the normalised body with the link in place of every placeholder. */
  lemma TextPartExactly(body: string, link: string)
    ensures var parts := Split(NormalizeText(body), "{inviteLink}");
      && PartsAround(NormalizeText(body), parts, "{inviteLink}")
      && |parts| == CountPlaceholders(NormalizeText(body)) + 1
      && RenderInvitationTextBody(body, link) == Join(parts, link)
  {
    var s := NormalizeText(body);
    SplitPartsAreClean(s, HOLE);
    SplitJoin(s, HOLE, HOLE);
    SplitUndone(s, HOLE);
  }

  /** With the one placeholder a body must have, the link stands where it stood. */
  lemma OnePlaceholder(body: string, link: string)
    requires CountPlaceholders(NormalizeText(body)) == 1
    ensures exists before: string, after: string ::
      NormalizeText(body) == before + "{inviteLink}" + after && RenderInvitationTextBody(body, link) == before + link + after
  {
    TextPartExactly(body, link);
    var parts := Split(NormalizeText(body), "{inviteLink}");
    assert parts[1..] == [parts[1]];
    assert Join(parts, link) == parts[0] + link + parts[1];
    assert Join(parts, "{inviteLink}") == parts[0] + "{inviteLink}" + parts[1];
  }

  // --- the anchor --------------------------------------------------------------------------

  /** The address of the anchor: nothing in it ends the attribute, and it decodes to the link; so does its text. */
  lemma AnchorLeadsToTheLink(link: string)
    ensures exists address: string ::
      && Anchor(link) == "<a href=\"" + address + ANCHOR_STYLE + ">" + address + "</a>"
      && '\"' !in address && '<' !in address && '>' !in address
      && Decode(address) == link
  {
    var address := Escaped(link);
    EscapeHtmlIsOnePass(link);
    EscapedIsInert(link);
    DecodeEscaped(link, "");
    assert address + "" == address && link + "" == link;
    AnchorIs(address);
  }

  lemma AnchorIs(address: string)
    ensures Markup(ANCHOR_HREF + address + ANCHOR_STYLE) + address + Markup(ANCHOR_END_TAG)
         == "<a href=\"" + address + ANCHOR_STYLE + ">" + address + "</a>"
  {
    assert Markup(ANCHOR_END_TAG) == "</a>";
  }
}
