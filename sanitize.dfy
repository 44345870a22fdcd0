/** `sanitize_input` of lib/DL/nutition.py, applied to the free-text fields of
    a nutrition request before they reach the prompt: HTML-escape the text, cut
    every line at the first prompt-injection keyword ("ignore", "forget",
    "you are now", "disregard", in any case), then strip surrounding
    whitespace. */
module Sanitize {
  import PyStr

  /** `html.escape` of one character (with `quote=True`). */
  function EscapeChar(c: char): (r: string)
    ensures |r| >= 1
  {
    if c == '&' then "&amp;"
    else if c == '<' then "&lt;"
    else if c == '>' then "&gt;"
    else if c == '"' then "&quot;"
    else if c == '\'' then "&#x27;"
    else [c]
  }

  /** The characters `html.escape` removes from text. */
  predicate IsMarkup(c: char) {
    c == '<' || c == '>' || c == '"' || c == '\''
  }

  /** `html.escape(text)`: no markup character survives. */
  function Escape(s: string): (r: string)
    ensures |r| >= |s|
    ensures forall i :: 0 <= i < |r| ==> !IsMarkup(r[i])
  {
    if s == [] then [] else EscapeChar(s[0]) + Escape(s[1..])
  }

  /** `html.unescape` restricted to the five references `Escape` writes. */
  function Unescape(s: string): (r: string)
    decreases |s|
  {
    if s == [] then []
    else if PyStr.StartsWith(s, "&amp;") then "&" + Unescape(s[5..])
    else if PyStr.StartsWith(s, "&lt;") then "<" + Unescape(s[4..])
    else if PyStr.StartsWith(s, "&gt;") then ">" + Unescape(s[4..])
    else if PyStr.StartsWith(s, "&quot;") then "\"" + Unescape(s[6..])
    else if PyStr.StartsWith(s, "&#x27;") then "'" + Unescape(s[6..])
    else [s[0]] + Unescape(s[1..])
  }

  /** A text whose second character is not `a` does not start with `&amp;`. */
  lemma NotAmp(s: string)
    requires |s| >= 2 && s[1] != 'a'
    ensures !PyStr.StartsWith(s, "&amp;")
  {
    if |s| >= 5 {
      assert s[..5][1] == s[1];
    }
  }

  lemma UnescapeAmp(rest: string)
    ensures Unescape("&amp;" + rest) == "&" + Unescape(rest)
  {
    var s := "&amp;" + rest;
    assert s[..5] == "&amp;" && s[5..] == rest;
  }

  lemma UnescapeLt(rest: string)
    ensures Unescape("&lt;" + rest) == "<" + Unescape(rest)
  {
    var s := "&lt;" + rest;
    NotAmp(s);
    assert s[..4] == "&lt;" && s[4..] == rest;
  }

  lemma UnescapeGt(rest: string)
    ensures Unescape("&gt;" + rest) == ">" + Unescape(rest)
  {
    var s := "&gt;" + rest;
    NotAmp(s);
    assert !PyStr.StartsWith(s, "&lt;") by { assert s[..4][1] == 'g'; }
    assert s[..4] == "&gt;" && s[4..] == rest;
  }

  lemma UnescapeQuot(rest: string)
    ensures Unescape("&quot;" + rest) == "\"" + Unescape(rest)
  {
    var s := "&quot;" + rest;
    NotAmp(s);
    assert !PyStr.StartsWith(s, "&lt;") by { assert s[..4][1] == 'q'; }
    assert !PyStr.StartsWith(s, "&gt;") by { assert s[..4][1] == 'q'; }
    assert s[..6] == "&quot;" && s[6..] == rest;
  }

  lemma UnescapeApos(rest: string)
    ensures Unescape("&#x27;" + rest) == "'" + Unescape(rest)
  {
    var s := "&#x27;" + rest;
    NotAmp(s);
    assert !PyStr.StartsWith(s, "&lt;") by { assert s[..4][1] == '#'; }
    assert !PyStr.StartsWith(s, "&gt;") by { assert s[..4][1] == '#'; }
    assert !PyStr.StartsWith(s, "&quot;") by { assert s[..6][1] == '#'; }
    assert s[..6] == "&#x27;" && s[6..] == rest;
  }

  lemma UnescapePlain(c: char, rest: string)
    requires c != '&'
    ensures Unescape([c] + rest) == [c] + Unescape(rest)
  {
    var s := [c] + rest;
    assert s[0] == c && s[1..] == rest;
    forall ref: string | |ref| >= 1 && ref[0] == '&' ensures !PyStr.StartsWith(s, ref) {
      if |ref| <= |s| {
        assert s[..|ref|][0] == c;
      }
    }
  }

  /** Unescaping reads one escaped character back. */
  lemma UnescapeChar(c: char, rest: string)
    ensures Unescape(EscapeChar(c) + rest) == [c] + Unescape(rest)
  {
    if c == '&' { UnescapeAmp(rest); }
    else if c == '<' { UnescapeLt(rest); }
    else if c == '>' { UnescapeGt(rest); }
    else if c == '"' { UnescapeQuot(rest); }
    else if c == '\'' { UnescapeApos(rest); }
    else { UnescapePlain(c, rest); }
  }

  /** Escaping loses nothing: unescaping gives the text back. */
  lemma {:induction false} UnescapeEscape(s: string)
    ensures Unescape(Escape(s)) == s
  {
    if s != [] {
      UnescapeChar(s[0], Escape(s[1..]));
      UnescapeEscape(s[1..]);
      assert [s[0]] + s[1..] == s;
    }
  }

  /** `s` begins with `k` when ASCII letters are compared case-insensitively
      (`k` is lower case). */
  predicate FoldsTo(s: string, k: string) {
    |k| <= |s| && PyStr.Lower(s[..|k|]) == k
  }

  /** One of the pattern's four alternatives matches at the front of `s`. */
  predicate KeywordAt(s: string) {
    FoldsTo(s, "ignore") || FoldsTo(s, "forget") || FoldsTo(s, "you are now") || FoldsTo(s, "disregard")
  }

  /** No keyword starts anywhere in `s`. */
  predicate Clean(s: string) {
    forall i :: 0 <= i <= |s| ==> !KeywordAt(s[i..])
  }

  /** Length of the first line of `s`: where `.*` stops. */
  function LineEnd(s: string): (n: nat)
    ensures n <= |s| && (n == |s| || s[n] == '\n')
    ensures forall i :: 0 <= i < n ==> s[i] != '\n'
  {
    PyStr.Lead(s, c => c != '\n')
  }

  /** A keyword never begins with a line break. */
  lemma KeywordNotNewline(s: string)
    requires KeywordAt(s)
    ensures s != [] && s[0] != '\n'
  {
    assert s[0] == s[..1][0];
  }

  /** `re.sub(r"(ignore.*|forget.*|you are now.*|disregard.*)", "", s,
      flags=re.IGNORECASE)`: scanning left to right, a keyword match removes
      the rest of its line and the scan resumes at the line break. */
  function Scrub(s: string): (r: string)
    ensures |r| <= |s|
    decreases |s|
  {
    if s == [] then []
    else if KeywordAt(s) then
      KeywordNotNewline(s);
      Scrub(s[LineEnd(s)..])
    else
      [s[0]] + Scrub(s[1..])
  }

  /** Scrubbing only deletes: every character of the result is one of the
      input's. */
  lemma {:induction false} ScrubDeletes(s: string)
    ensures forall i :: 0 <= i < |Scrub(s)| ==> Scrub(s)[i] in s
    decreases |s|
  {
    if s != [] {
      if KeywordAt(s) {
        KeywordNotNewline(s);
        var rest := s[LineEnd(s)..];
        ScrubDeletes(rest);
        assert forall c :: c in rest ==> c in s;
      } else {
        ScrubDeletes(s[1..]);
        var r := Scrub(s);
        assert r == [s[0]] + Scrub(s[1..]);
        forall i | 1 <= i < |r| ensures r[i] in s {
          assert r[i] == Scrub(s[1..])[i - 1];
        }
      }
    }
  }

  /** A scrubbed text starting with a line break keeps it. */
  lemma ScrubNewline(s: string)
    requires s != [] && s[0] == '\n'
    ensures Scrub(s) != [] && Scrub(s)[0] == '\n'
  {
    assert !KeywordAt(s) by {
      if KeywordAt(s) {
        KeywordNotNewline(s);
      }
    }
  }

  /** Up to its first line break, a scrubbed text is a prefix of the original. */
  lemma {:induction false} ScrubPrefix(u: string, j: nat)
    requires j <= |Scrub(u)| && '\n' !in Scrub(u)[..j]
    ensures j <= |u| && Scrub(u)[..j] == u[..j]
    decreases |u|
  {
    if u != [] && j > 0 {
      if KeywordAt(u) {
        ScrubFromKeyword(u);
      } else {
        var tail := Scrub(u[1..]);
        ScrubStep(u);
        assert tail[..j - 1] == Scrub(u)[1..j];
        ScrubPrefix(u[1..], j - 1);
        PrefixCons(u, tail, j);
      }
    }
  }

  /** Where a keyword starts, the scrubbed text is empty or starts a new line. */
  lemma ScrubFromKeyword(u: string)
    requires KeywordAt(u)
    ensures Scrub(u) == [] || Scrub(u)[0] == '\n'
  {
    KeywordNotNewline(u);
    var rest := u[LineEnd(u)..];
    assert Scrub(u) == Scrub(rest);
    if rest != [] {
      ScrubNewline(rest);
    }
  }

  /** Where no keyword starts, the first character is kept. */
  lemma ScrubStep(u: string)
    requires u != [] && !KeywordAt(u)
    ensures Scrub(u) == [u[0]] + Scrub(u[1..])
  {
  }

  lemma PrefixCons(u: string, tail: string, j: nat)
    requires 0 < j <= |u| && j - 1 <= |tail| && tail[..j - 1] == u[1..][..j - 1]
    ensures ([u[0]] + tail)[..j] == u[..j]
  {
    assert ([u[0]] + tail)[..j] == [u[0]] + tail[..j - 1];
    assert u[..j] == [u[0]] + u[1..][..j - 1];
  }

  /** A folded keyword match contains no line break. */
  lemma FoldNoNewline(x: string, k: string)
    requires FoldsTo(x, k) && '\n' !in k
    ensures '\n' !in x[..|k|]
  {
    forall i | 0 <= i < |k| ensures x[i] != '\n' {
      assert PyStr.Lower(x[..|k|])[i] == PyStr.LowerChar(x[i]);
    }
  }

  /** A keyword at the front of a scrubbed step was already at the front of
      the original. */
  lemma FoldTransfer(s: string, k: string)
    requires s != [] && |k| >= 1 && '\n' !in k
    requires FoldsTo([s[0]] + Scrub(s[1..]), k)
    ensures FoldsTo(s, k)
  {
    var tail := Scrub(s[1..]);
    var r := [s[0]] + tail;
    FoldNoNewline(r, k);
    var j := |k| - 1;
    assert tail[..j] == r[..|k|][1..];
    ScrubPrefix(s[1..], j);
    assert r[..|k|] == [s[0]] + tail[..j];
    assert s[..|k|] == [s[0]] + s[1..][..j];
  }

  /** After scrubbing, no keyword remains anywhere in the text. */
  lemma {:induction false} ScrubClean(s: string)
    ensures Clean(Scrub(s))
    decreases |s|
  {
    if s != [] {
      if KeywordAt(s) {
        KeywordNotNewline(s);
        ScrubClean(s[LineEnd(s)..]);
      } else {
        var tail := Scrub(s[1..]);
        var r := [s[0]] + tail;
        ScrubClean(s[1..]);
        assert !KeywordAt(r) by {
          if FoldsTo(r, "ignore") { FoldTransfer(s, "ignore"); }
          if FoldsTo(r, "forget") { FoldTransfer(s, "forget"); }
          if FoldsTo(r, "you are now") { FoldTransfer(s, "you are now"); }
          if FoldsTo(r, "disregard") { FoldTransfer(s, "disregard"); }
        }
        forall i | 1 <= i <= |r| ensures !KeywordAt(r[i..]) {
          assert r[i..] == tail[i - 1..];
        }
      }
    }
  }

  /** A keyword at the front of a text is also at the front of any text that
      extends it. */
  lemma KeywordExtends(x: string, y: string)
    requires KeywordAt(x) && |x| <= |y| && y[..|x|] == x
    ensures KeywordAt(y)
  {
    if FoldsTo(x, "ignore") { assert y[..6] == x[..6]; }
    if FoldsTo(x, "forget") { assert y[..6] == x[..6]; }
    if FoldsTo(x, "you are now") { assert y[..11] == x[..11]; }
    if FoldsTo(x, "disregard") { assert y[..9] == x[..9]; }
  }

  /** Every slice of a clean text is clean. */
  lemma CleanSlice(s: string, a: nat, b: nat)
    requires a <= b <= |s| && Clean(s)
    ensures Clean(s[a..b])
  {
    forall i | 0 <= i <= b - a ensures !KeywordAt(s[a..b][i..]) {
      var x := s[a..b][i..];
      assert !KeywordAt(s[a + i..]);
      if KeywordAt(x) {
        KeywordExtends(x, s[a + i..]);
      }
    }
  }

  /** Stripping keeps a text clean and adds no character. */
  lemma StripKeeps(s: string)
    ensures Clean(s) ==> Clean(PyStr.Strip(s))
    ensures forall i :: 0 <= i < |PyStr.Strip(s)| ==> PyStr.Strip(s)[i] in s
  {
    var r := PyStr.Strip(s);
    var a := PyStr.StripStart(s);
    if Clean(s) {
      CleanSlice(s, a, a + |r|);
    }
    forall i | 0 <= i < |r| ensures r[i] in s {
      assert r[i] == s[a + i];
    }
  }

  /** `sanitize_input(text)`: no markup character and no keyword survives. */
  function SanitizeInput(text: string): (r: string)
    ensures Clean(r)
    ensures forall i :: 0 <= i < |r| ==> !IsMarkup(r[i])
  {
    var escaped := Escape(text);
    var scrubbed := Scrub(escaped);
    ScrubClean(escaped);
    ScrubDeletes(escaped);
    StripKeeps(scrubbed);
    PyStr.Strip(scrubbed)
  }

  /** Text without `&` or markup is not changed by escaping. */
  lemma {:induction false} EscapePlain(s: string)
    requires forall i :: 0 <= i < |s| ==> s[i] != '&' && !IsMarkup(s[i])
    ensures Escape(s) == s
  {
    if s != [] {
      EscapePlain(s[1..]);
      assert [s[0]] + s[1..] == s;
    }
  }

  /** Scrubbing leaves a clean text alone. */
  lemma {:induction false} ScrubKeepsClean(s: string)
    requires Clean(s)
    ensures Scrub(s) == s
  {
    if s != [] {
      assert !KeywordAt(s[0..]);
      assert s[0..] == s;
      forall i | 0 <= i <= |s| - 1 ensures !KeywordAt(s[1..][i..]) {
        assert s[1..][i..] == s[i + 1..];
      }
      ScrubKeepsClean(s[1..]);
      assert [s[0]] + s[1..] == s;
    }
  }

  /** Ordinary input (no markup, no `&`, no keyword, no surrounding
      whitespace) reaches the prompt unchanged. */
  lemma PlainTextKept(text: string)
    requires forall i :: 0 <= i < |text| ==> text[i] != '&' && !IsMarkup(text[i])
    requires Clean(text)
    requires text == [] || (!PyStr.IsSpace(text[0]) && !PyStr.IsSpace(text[|text| - 1]))
    ensures SanitizeInput(text) == text
  {
    EscapePlain(text);
    ScrubKeepsClean(text);
    PyStr.StripTrimmed(text);
  }
}
