/** JavaScript string operations. */
module Strings {

  predicate StartsWith(s: string, prefix: string) {
    |prefix| <= |s| && s[..|prefix|] == prefix
  }

  /** `s.split(sep)` for a non-empty separator. */
  function Split(s: string, sep: string): (parts: seq<string>)
    requires sep != ""
    ensures |parts| > 0
  {
    if s == "" then [""]
    else if StartsWith(s, sep) then [""] + Split(s[|sep|..], sep)
    else
      var rest := Split(s[1..], sep);
      [[s[0]] + rest[0]] + rest[1..]
  }

  function Join(parts: seq<string>, glue: string): string {
    if parts == [] then ""
    else if |parts| == 1 then parts[0]
    else parts[0] + glue + Join(parts[1..], glue)
  }

  /** The white space and line terminators that `trim` removes. */
  predicate IsSpace(c: char) {
    || '\t' <= c <= '\r' || c == ' ' || c == '\U{00A0}' || c == '\U{1680}'
    || '\U{2000}' <= c <= '\U{200A}' || c == '\U{2028}' || c == '\U{2029}'
    || c == '\U{202F}' || c == '\U{205F}' || c == '\U{3000}' || c == '\U{FEFF}'
  }

  function TrimStart(s: string): string {
    if s != "" && IsSpace(s[0]) then TrimStart(s[1..]) else s
  }

  function TrimEnd(s: string): string {
    if s != "" && IsSpace(s[|s| - 1]) then TrimEnd(s[..|s| - 1]) else s
  }

  // --- trimming -------------------------------------------------------------------

  predicate Blank(s: string) {
    forall i :: 0 <= i < |s| ==> IsSpace(s[i])
  }

  lemma {:induction false} TrimStartRemovesBlanks(s: string)
    ensures |TrimStart(s)| <= |s|
    ensures s[|s| - |TrimStart(s)|..] == TrimStart(s) && Blank(s[..|s| - |TrimStart(s)|])
  {
    if s != "" && IsSpace(s[0]) {
      TrimStartRemovesBlanks(s[1..]);
      var n := |s[1..]| - |TrimStart(s[1..])|;
      assert s[..n + 1] == [s[0]] + s[1..][..n];
    }
  }

  lemma {:induction false} TrimStartSkips(lead: string, s: string)
    requires Blank(lead) && s != "" && !IsSpace(s[0])
    ensures TrimStart(lead + s) == s
  {
    if lead == "" {
      assert lead + s == s;
    } else {
      assert (lead + s)[1..] == lead[1..] + s;
      TrimStartSkips(lead[1..], s);
    }
  }

  lemma {:induction false} TrimEndRemovesBlanks(s: string)
    ensures |TrimEnd(s)| <= |s| && s[..|TrimEnd(s)|] == TrimEnd(s) && Blank(s[|TrimEnd(s)|..])
  {
    if s != "" && IsSpace(s[|s| - 1]) {
      var m := |s| - 1;
      TrimEndRemovesBlanks(s[..m]);
      var n := |TrimEnd(s[..m])|;
      assert s[n..] == s[..m][n..] + [s[m]];
    }
  }

  lemma {:induction false} TrimEndConcat(a: string, b: string)
    requires a != "" && !IsSpace(a[|a| - 1])
    ensures TrimEnd(a + b) == a + TrimEnd(b)
    decreases |b|
  {
    if b == "" {
      assert a + b == a;
    } else {
      var m := |b| - 1;
      assert (a + b)[..|a + b| - 1] == a + b[..m];
      TrimEndConcat(a, b[..m]);
    }
  }

  lemma {:induction false} TrimEndBlank(s: string)
    requires Blank(s)
    ensures TrimEnd(s) == ""
  {
    if s != "" { TrimEndBlank(s[..|s| - 1]); }
  }

  lemma {:induction false} TrimStartBlank(s: string)
    requires Blank(s)
    ensures TrimStart(s) == ""
  {
    if s != "" { TrimStartBlank(s[1..]); }
  }

  /** What is left of `s` when white space is cut off on both sides, and nothing more. */
  ghost predicate Trimmed(s: string, r: string, lead: string, tail: string) {
    && s == lead + r + tail && Blank(lead) && Blank(tail)
    && (r != "" ==> !IsSpace(r[0]) && !IsSpace(r[|r| - 1]))
  }

  lemma TrimmedIsTrim(s: string, r: string, lead: string, tail: string)
    requires Trimmed(s, r, lead, tail)
    ensures TrimEnd(TrimStart(s)) == r
  {
    if r == "" {
      TrimStartBlank(s);
    } else {
      assert s == lead + (r + tail);
      assert (r + tail)[0] == r[0];
      TrimStartSkips(lead, r + tail);
      TrimEndConcat(r, tail);
      TrimEndBlank(tail);
    }
  }

  lemma TrimIsTrimmed(s: string) returns (lead: string, tail: string)
    ensures Trimmed(s, TrimEnd(TrimStart(s)), lead, tail)
  {
    var start := TrimStart(s);
    TrimStartRemovesBlanks(s);
    TrimEndRemovesBlanks(start);
    TrimStartVisible(s);
    TrimEndVisible(start);
    lead, tail := s[..|s| - |start|], start[|TrimEnd(start)|..];
    assert s == lead + start && start == TrimEnd(start) + tail;
  }

  lemma {:induction false} TrimStartVisible(s: string)
    ensures TrimStart(s) != "" ==> !IsSpace(TrimStart(s)[0])
  {
    if s != "" && IsSpace(s[0]) { TrimStartVisible(s[1..]); }
  }

  lemma {:induction false} TrimEndVisible(s: string)
    ensures TrimEnd(s) != "" ==> !IsSpace(TrimEnd(s)[|TrimEnd(s)| - 1])
  {
    if s != "" && IsSpace(s[|s| - 1]) { TrimEndVisible(s[..|s| - 1]); }
  }
}
