/** HTML escaping as the backend spells it: a chain of global replaces with
    the ampersand replaced first, so no entity is ever escaped twice. The
    assembly step escapes `& < >` (`escapeHtml`, and `nl2br` on top of it);
    the report renderer also escapes both quote characters (`esc`). */
module Html {
  import opened Text

  /** `escapeHtml(s)` for a string `s`. */
  function EscapeText(s: string): (r: string)
    ensures '<' !in r && '>' !in r
  {
    var a := ReplaceChar(s, '&', "&amp;");
    var b := ReplaceChar(a, '<', "&lt;");
    ReplaceCharKeepsOut(b, '>', "&gt;", '<');
    ReplaceChar(b, '>', "&gt;")
  }

  /** `esc(s)` of the report renderer for a string `s`. */
  function Esc(s: string): (r: string)
    ensures '<' !in r && '>' !in r && '"' !in r && '\'' !in r
  {
    QuotesKeepOut(EscapeText(s));
    ReplaceChar(ReplaceChar(EscapeText(s), '"', "&quot;"), '\'', "&#039;")
  }

  /** The quote replaces bring back no angle bracket and leave no quote. */
  lemma QuotesKeepOut(e: string)
    requires '<' !in e && '>' !in e
    ensures var r := ReplaceChar(ReplaceChar(e, '"', "&quot;"), '\'', "&#039;");
            '<' !in r && '>' !in r && '"' !in r && '\'' !in r
  {
    DoubleQuoteKeepsOut(e);
    ApostropheKeepsOut(ReplaceChar(e, '"', "&quot;"));
  }

  /** Replacing `"` adds no angle bracket. */
  lemma DoubleQuoteKeepsOut(e: string)
    requires '<' !in e && '>' !in e
    ensures var q := ReplaceChar(e, '"', "&quot;"); '<' !in q && '>' !in q && '"' !in q
  {
    ReplaceCharKeepsOut(e, '"', "&quot;", '<');
    ReplaceCharKeepsOut(e, '"', "&quot;", '>');
  }

  /** Replacing `'` adds no angle bracket and no `"`. */
  lemma ApostropheKeepsOut(q: string)
    requires '<' !in q && '>' !in q && '"' !in q
    ensures var r := ReplaceChar(q, '\'', "&#039;"); '<' !in r && '>' !in r && '"' !in r && '\'' !in r
  {
    ReplaceCharKeepsOut(q, '\'', "&#039;", '<');
    ReplaceCharKeepsOut(q, '\'', "&#039;", '>');
    ReplaceCharKeepsOut(q, '\'', "&#039;", '"');
  }

  /** `nl2br(s)`: escape, then turn every line feed into `<br>`. */
  function Nl2br(s: string): (r: string)
    ensures '\n' !in r
    ensures '\n' !in s ==> r == EscapeText(s)
  {
    NoNewlineEscaped(s);
    ReplaceChar(EscapeText(s), '\n', "<br>")
  }

  /** Escaping introduces no line feed. */
  lemma NoNewlineEscaped(s: string)
    ensures '\n' !in s ==> '\n' !in EscapeText(s)
  {
    if '\n' !in s {
      var a := ReplaceChar(s, '&', "&amp;");
      ReplaceCharKeepsOut(s, '&', "&amp;", '\n');
      var b := ReplaceChar(a, '<', "&lt;");
      ReplaceCharKeepsOut(a, '<', "&lt;", '\n');
      ReplaceCharKeepsOut(b, '>', "&gt;", '\n');
    }
  }

  // ---------------------------------------------------------------------------
  // The one-pass reading of the chained replaces
  // ---------------------------------------------------------------------------

  /** What a single character becomes; `quotes` selects the report renderer's
      wider set. */
  function Entity(c: char, quotes: bool): string {
    if c == '&' then "&amp;"
    else if c == '<' then "&lt;"
    else if c == '>' then "&gt;"
    else if quotes && c == '"' then "&quot;"
    else if quotes && c == '\'' then "&#039;"
    else [c]
  }

  /** Each character of `s` replaced by its image under `f`. */
  function MapChars(s: string, f: char -> string): string
    decreases |s|
  {
    if s == [] then [] else f(s[0]) + MapChars(s[1..], f)
  }

  /** Escaping character by character. */
  function EscapeEach(s: string, quotes: bool): string {
    MapChars(s, c => Entity(c, quotes))
  }

  /** The character map that one global replace applies. */
  function Replacer(c: char, rep: string): char -> string {
    x => if x == c then rep else [x]
  }

  /** A global replace maps each character on its own. */
  lemma {:induction false} ReplaceCharIsMap(s: string, c: char, rep: string)
    ensures ReplaceChar(s, c, rep) == MapChars(s, Replacer(c, rep))
    decreases |s|
  {
    if s != [] {
      ReplaceCharIsMap(s[1..], c, rep);
    }
  }

  /** Global replacement distributes over concatenation. */
  lemma ReplaceCharConcat(a: string, b: string, c: char, rep: string)
    ensures ReplaceChar(a + b, c, rep) == ReplaceChar(a, c, rep) + ReplaceChar(b, c, rep)
  {
    ReplaceCharIsMap(a + b, c, rep);
    ReplaceCharIsMap(a, c, rep);
    ReplaceCharIsMap(b, c, rep);
    MapCharsConcat(a, b, Replacer(c, rep));
  }

  lemma ReplaceCharOne(x: char, c: char, rep: string)
    ensures ReplaceChar([x], c, rep) == if x == c then rep else [x]
  {
    assert [x][1..] == [];
  }

  /** Because `&` goes first, the chain `& < >` acts on each character alone. */
  lemma EscapeTextChar(x: char)
    ensures EscapeText([x]) == Entity(x, false)
  {
    ReplaceCharOne(x, '&', "&amp;");
    var a := ReplaceChar([x], '&', "&amp;");
    if x == '&' {
      assert a == "&amp;" && '<' !in a;
      var b := ReplaceChar(a, '<', "&lt;");
      assert b == a && '>' !in b;
    } else {
      assert a == [x];
      ReplaceCharOne(x, '<', "&lt;");
      var b := ReplaceChar(a, '<', "&lt;");
      if x == '<' {
        assert b == "&lt;" && '>' !in b;
      } else {
        assert b == [x];
        ReplaceCharOne(x, '>', "&gt;");
      }
    }
  }

  /** The chained replaces of `escapeHtml` are a one-pass, per-character
      escape. */
  lemma {:induction false} EscapeTextPerChar(s: string)
    ensures EscapeText(s) == EscapeEach(s, false)
    decreases |s|
  {
    if s != [] {
      var x := s[0];
      assert s == [x] + s[1..];
      ReplaceCharConcat([x], s[1..], '&', "&amp;");
      var a1 := ReplaceChar([x], '&', "&amp;");
      var a2 := ReplaceChar(s[1..], '&', "&amp;");
      ReplaceCharConcat(a1, a2, '<', "&lt;");
      var b1 := ReplaceChar(a1, '<', "&lt;");
      var b2 := ReplaceChar(a2, '<', "&lt;");
      ReplaceCharConcat(b1, b2, '>', "&gt;");
      EscapeTextChar(x);
      EscapeTextPerChar(s[1..]);
    }
  }

  /** The quote replaces of `esc` applied to an already escaped text. */
  function QuoteSteps(e: string): string {
    ReplaceChar(ReplaceChar(e, '"', "&quot;"), '\'', "&#039;")
  }

  lemma QuoteStepsOf(s: string)
    ensures Esc(s) == QuoteSteps(EscapeText(s))
  {
  }

  lemma QuoteStepsOne(x: char)
    ensures QuoteSteps([x]) == Entity(x, true) || x == '&' || x == '<' || x == '>'
  {
    ReplaceCharOne(x, '"', "&quot;");
    if x == '"' {
      assert '\'' !in "&quot;";
    } else {
      ReplaceCharOne(x, '\'', "&#039;");
    }
  }

  lemma QuoteStepsEntity(e: string)
    requires e == "&amp;" || e == "&lt;" || e == "&gt;"
    ensures QuoteSteps(e) == e
  {
    assert '"' !in e && '\'' !in e;
  }

  /** The report renderer's `esc` acts on each character alone as well. */
  lemma EscChar(x: char)
    ensures Esc([x]) == Entity(x, true)
  {
    EscapeTextChar(x);
    QuoteStepsOf([x]);
    if x == '&' || x == '<' || x == '>' {
      QuoteStepsEntity(Entity(x, false));
    } else {
      QuoteStepsOne(x);
    }
  }

  lemma {:induction false} EscPerChar(s: string)
    ensures Esc(s) == EscapeEach(s, true)
    decreases |s|
  {
    if s != [] {
      var x := s[0];
      assert s == [x] + s[1..];
      EscapeTextPerChar(s);
      EscapeTextPerChar([x] + s[1..]);
      EscapeTextPerChar(s[1..]);
      var e1 := EscapeText([x]);
      var e2 := EscapeText(s[1..]);
      EscapeTextChar(x);
      assert EscapeText(s) == e1 + e2 by {
        assert EscapeEach(s, false) == Entity(x, false) + EscapeEach(s[1..], false);
      }
      ReplaceCharConcat(e1, e2, '"', "&quot;");
      var q1 := ReplaceChar(e1, '"', "&quot;");
      var q2 := ReplaceChar(e2, '"', "&quot;");
      ReplaceCharConcat(q1, q2, '\'', "&#039;");
      EscChar(x);
      EscPerChar(s[1..]);
    }
  }

  // ---------------------------------------------------------------------------
  // Decoding
  // ---------------------------------------------------------------------------

  /** Entity decoding for the five entities the escapes produce. */
  function Unescape(t: string): string
    decreases |t|
  {
    if t == [] then []
    else if t[0] != '&' then [t[0]] + Unescape(t[1..])
    else if StartsWith(t, "&amp;") then ['&'] + Unescape(t[5..])
    else if StartsWith(t, "&lt;") then ['<'] + Unescape(t[4..])
    else if StartsWith(t, "&gt;") then ['>'] + Unescape(t[4..])
    else if StartsWith(t, "&quot;") then ['"'] + Unescape(t[6..])
    else if StartsWith(t, "&#039;") then ['\''] + Unescape(t[6..])
    else [t[0]] + Unescape(t[1..])
  }

  /** Decoding reads one escaped character back off the front. */
  lemma UnescapeEntity(x: char, quotes: bool, rest: string)
    ensures Unescape(Entity(x, quotes) + rest) == [x] + Unescape(rest)
  {
    if x == '&' {
      UnescapeNamed("&amp;", '&', rest);
    } else if x == '<' {
      UnescapeNamed("&lt;", '<', rest);
    } else if x == '>' {
      UnescapeNamed("&gt;", '>', rest);
    } else if quotes && x == '"' {
      UnescapeNamed("&quot;", '"', rest);
    } else if quotes && x == '\'' {
      UnescapeNamed("&#039;", '\'', rest);
    } else {
      var t := [x] + rest;
      assert t[0] == x && t[1..] == rest;
    }
  }

  /** One of the five entities, followed by anything, decodes to its
      character. */
  lemma UnescapeNamed(e: string, x: char, rest: string)
    requires (e, x) in [("&amp;", '&'), ("&lt;", '<'), ("&gt;", '>'), ("&quot;", '"'), ("&#039;", '\'')]
    ensures Unescape(e + rest) == [x] + Unescape(rest)
  {
    var t := e + rest;
    assert t[..|e|] == e && t[|e|..] == rest;
    assert t[0] == '&' && t[1] == e[1];
  }

  /** Escaping loses nothing: decoding gives the original text back. */
  lemma {:induction false} UnescapeEscapeEach(s: string, quotes: bool)
    ensures Unescape(EscapeEach(s, quotes)) == s
    decreases |s|
  {
    if s != [] {
      UnescapeEntity(s[0], quotes, EscapeEach(s[1..], quotes));
      UnescapeEscapeEach(s[1..], quotes);
      assert s == [s[0]] + s[1..];
    }
  }

  /** `escapeHtml` is injective: decoding recovers its input. */
  lemma EscapeTextRoundTrip(s: string)
    ensures Unescape(EscapeText(s)) == s
  {
    EscapeTextPerChar(s);
    UnescapeEscapeEach(s, false);
  }

  /** `esc` is injective: decoding recovers its input. */
  lemma EscRoundTrip(s: string)
    ensures Unescape(Esc(s)) == s
  {
    EscPerChar(s);
    UnescapeEscapeEach(s, true);
  }

  /** Each line feed becomes exactly one `<br>` between the escaped lines. */
  lemma Nl2brLines(a: string, b: string)
    ensures Nl2br(a + "\n" + b) == Nl2br(a) + "<br>" + Nl2br(b)
  {
    var ea := EscapeText(a);
    var eb := EscapeText(b);
    EscapeTextLines(a, b);
    ReplaceCharConcat(ea + "\n", eb, '\n', "<br>");
    ReplaceCharConcat(ea, "\n", '\n', "<br>");
    ReplaceCharOne('\n', '\n', "<br>");
  }

  /** Escaping keeps a line feed between two lines as it is. */
  lemma EscapeTextLines(a: string, b: string)
    ensures EscapeText(a + "\n" + b) == EscapeText(a) + "\n" + EscapeText(b)
  {
    var nl := "\n";
    assert EscapeEach(nl, false) == nl by {
      assert nl[1..] == [];
    }
    EscapeEachConcat(a, nl, false);
    EscapeEachConcat(a + nl, b, false);
    assert EscapeEach(a + nl + b, false) == EscapeEach(a, false) + nl + EscapeEach(b, false);
    EscapeTextPerChar(a + nl + b);
    EscapeTextPerChar(a);
    EscapeTextPerChar(b);
  }

  lemma EscapeEachConcat(a: string, b: string, quotes: bool)
    ensures EscapeEach(a + b, quotes) == EscapeEach(a, quotes) + EscapeEach(b, quotes)
  {
    MapCharsConcat(a, b, c => Entity(c, quotes));
  }

  /** Mapping characters distributes over concatenation. */
  lemma {:induction false} MapCharsConcat(a: string, b: string, f: char -> string)
    ensures MapChars(a + b, f) == MapChars(a, f) + MapChars(b, f)
    decreases |a|
  {
    if a != [] {
      assert (a + b)[0] == a[0];
      assert (a + b)[1..] == a[1..] + b;
      MapCharsConcat(a[1..], b, f);
      assert f(a[0]) + (MapChars(a[1..], f) + MapChars(b, f)) == (f(a[0]) + MapChars(a[1..], f)) + MapChars(b, f);
    } else {
      assert a + b == b;
    }
  }
}
