/** Turning the language model's free-text answer into the draft envelope:
    locate a JSON object in the text, insist on a `sections` object,
    normalise the seven sections, and collect the model's own alerts, the
    paragraph-count alerts and the empty-section alerts, in that order.
    `JSON.parse` and the per-template section guidance are parameters. */
module ParseModel {
  import opened Wrappers
  import opened Text
  import opened Json
  import opened Draft

  const EmptyResponseMessage: string := "Modelo retornou resposta vazia."
  const NotJsonMessage: string := "Resposta do modelo não é JSON válido."
  const NoSectionsMessage: string := "JSON inválido — falta 'sections' (objeto)."
  const DefaultTemplateVersion: string := "cobranca_v1_2"

  /** `JSON.parse(String(s))`, `None` when it throws. */
  type JsonParser = string -> Option<JVal>

  // ---------------------------------------------------------------------------
  // Text of the answer
  // ---------------------------------------------------------------------------

  /** `getText(modelRaw)`: the trimmed text of a string, of an object's
      non-null `text`, or of any other value; "" for null or undefined. */
  function GetText(c: Coercion, raw: Option<JVal>): (t: string)
    ensures IsTrimmed(t)
    ensures raw.None? || raw == Some(JNull) ==> t == []
    ensures raw.Some? && raw.value.JStr? ==> t == Trim(raw.value.str)
  {
    if raw.None? || raw.value.JNull? then []
    else
      var s := RawText(c, raw.value);
      TrimIsTrimmed(s);
      Trim(s)
  }

  /** The text `getText` trims: a string itself, an object's non-null
      `text`, or `String(v)`. */
  function RawText(c: Coercion, v: JVal): string {
    if v.JStr? then v.str
    else
      var text := Get(v, "text");
      if text.Some? && !text.value.JNull? then ToStr(c, text.value) else ToStr(c, v)
  }

  // ---------------------------------------------------------------------------
  // Locating the JSON object
  // ---------------------------------------------------------------------------

  const Fence: string := "```"

  /** What `/```(?:json)?\s*([\s\S]*?)\s*```/i` captures, already trimmed:
      the text between the first fence (and an optional `json` tag in any
      case) and the next fence. `None` when no closing fence follows. */
  function FencedBody(s: string): (r: Option<string>)
    ensures r.Some? ==> IsTrimmed(r.value)
  {
    var raw := FencedRaw(s);
    if raw.None? then None
    else
      TrimIsTrimmed(raw.value);
      Some(Trim(raw.value))
  }

  /** The untrimmed text between the first fence (and its tag) and the next. */
  function FencedRaw(s: string): Option<string> {
    RawAfter(s, IndexOf(s, Fence))
  }

  /** The untrimmed text of a fence opened at `i`, up to the next fence. */
  function RawAfter(s: string, i: int): Option<string> {
    if i < 0 || i + 3 > |s| then None
    else
      var p := OpenEnd(s, i);
      var k := IndexOf(s[p..], Fence);
      if k < 0 then None
      else Some(s[p..p + k])
  }

  /** The fenced body is a piece of the text. */
  lemma FencedBodyInside(s: string)
    ensures FencedBody(s).Some? ==> Contains(s, FencedBody(s).value)
  {
    RawInside(s, IndexOf(s, Fence));
  }

  lemma RawInside(s: string, i: int)
    ensures RawAfter(s, i).Some? ==> Contains(s, Trim(RawAfter(s, i).value))
  {
    var a, b := RawSlice(s, i);
    if RawAfter(s, i).Some? {
      TrimInside(s, a, b);
    }
  }

  /** The fenced text is a slice of the document. */
  lemma RawSlice(s: string, i: int) returns (a: nat, b: nat)
    ensures RawAfter(s, i).Some? ==> a <= b <= |s| && RawAfter(s, i).value == s[a..b]
  {
    if 0 <= i && i + 3 <= |s| {
      a := OpenEnd(s, i);
      var k := IndexOf(s[a..], Fence);
      b := if k < 0 then a else a + k;
    } else {
      a, b := 0, 0;
    }
  }

  /** Where the content of a fence opened at `i` starts: after the three
      backticks and, when present, the `json` tag in any letter case. */
  function OpenEnd(s: string, i: nat): (p: nat)
    requires i + 3 <= |s|
    ensures i + 3 <= p <= |s|
  {
    if JsonTagAt(s, i + 3) then i + 7 else i + 3
  }

  /** `json` at `i`, matched case-insensitively. Only ASCII letters fold to
      these four under a non-Unicode `/i` regular expression. */
  predicate JsonTagAt(s: string, i: nat) {
    && i + 4 <= |s|
    && (s[i] == 'j' || s[i] == 'J')
    && (s[i + 1] == 's' || s[i + 1] == 'S')
    && (s[i + 2] == 'o' || s[i + 2] == 'O')
    && (s[i + 3] == 'n' || s[i + 3] == 'N')
  }

  /** A text that starts with `{` and ends with `}`. */
  predicate Braced(t: string) {
    t != [] && t[0] == '{' && t[|t| - 1] == '}'
  }

  /** `extractJsonFromText(text)`: the fenced block if it looks like an
      object, else the slice from the first `{` to the last `}`, else "". */
  function ExtractJsonFromText(s: string): string {
    PickJson(FencedBody(s), s)
  }

  /** The fenced body `f` when it is brace-delimited, else the fallback. */
  function PickJson(f: Option<string>, s: string): string {
    if f.Some? && Braced(f.value) then f.value else BraceSlice(s)
  }

  /** What the extraction returns is empty or brace-delimited, and is a
      piece of the text. */
  lemma ExtractedInside(s: string)
    ensures var r := ExtractJsonFromText(s);
            (r == [] || Braced(r)) && Contains(s, r)
  {
    var f := FencedBody(s);
    if f.Some? && Braced(f.value) {
      FencedBodyInside(s);
    } else {
      BraceSliceSpec(s);
    }
  }

  /** The fallback: from the first `{` through the last `}`, or "" when no
      `}` follows the first `{`. */
  function BraceSlice(s: string): string {
    SliceFrom(s, IndexOfChar(s, '{'), LastIndexOfChar(s, '}'))
  }

  /** `start >= 0 && end > start ? s.slice(start, end + 1) : ""` */
  function SliceFrom(s: string, start: int, end: int): string
    requires -1 <= start < |s| && -1 <= end < |s|
  {
    if start >= 0 && end > start then s[start..end + 1] else []
  }

  /** The fallback slice is empty exactly when there is no `{`, or no `}`
      after the first one; otherwise it is a brace-delimited piece of the
      text. */
  lemma BraceSliceSpec(s: string)
    ensures var r := BraceSlice(s);
            && (r == [] <==> '{' !in s || '}' !in s[IndexOfChar(s, '{')..])
            && (r == [] || Braced(r))
            && Contains(s, r)
  {
    NoBraceAfterOpen(s);
    SliceBetween(s, IndexOfChar(s, '{'), LastIndexOfChar(s, '}'));
  }

  /** `BraceSlice` with the two positions already found. */
  lemma SliceBetween(s: string, start: int, end: int)
    requires -1 <= start < |s| && -1 <= end < |s|
    requires start == -1 <==> '{' !in s
    requires start >= 0 ==> s[start] == '{' && ('}' in s[start..] <==> end > start)
    requires end >= 0 ==> s[end] == '}'
    ensures var r := SliceFrom(s, start, end);
            && (r == [] <==> '{' !in s || '}' !in s[start..])
            && (r == [] || Braced(r))
            && Contains(s, r)
  {
    SliceEnds(s, start, end);
    SliceInside(s, start, end);
  }

  lemma SliceEnds(s: string, start: int, end: int)
    requires -1 <= start < |s| && -1 <= end < |s|
    requires start >= 0 ==> s[start] == '{'
    requires end >= 0 ==> s[end] == '}'
    ensures var r := SliceFrom(s, start, end);
            r == [] || Braced(r)
  {
    if start >= 0 && end > start {
      var r := s[start..end + 1];
      assert r[0] == s[start];
      assert r[end - start] == s[end];
    }
  }

  lemma SliceInside(s: string, start: int, end: int)
    requires -1 <= start < |s| && -1 <= end < |s|
    ensures Contains(s, SliceFrom(s, start, end))
  {
    if start >= 0 && end > start {
      ContainsAt(s, s[start..end + 1], start);
    } else {
      ContainsAt(s, [], 0);
    }
  }

  /** The first `{` is not followed by a `}` exactly when the last `}` does
      not come after it. */
  lemma NoBraceAfterOpen(s: string)
    ensures IndexOfChar(s, '{') >= 0 ==>
      ('}' in s[IndexOfChar(s, '{')..] <==> LastIndexOfChar(s, '}') > IndexOfChar(s, '{'))
  {
    var start := IndexOfChar(s, '{');
    if start >= 0 {
      if '}' in s[start..] {
        var j :| 0 <= j < |s[start..]| && s[start..][j] == '}';
        assert s[start + j] == '}' && j != 0;
        LastAtLeast(s, '}', start + j);
      }
      var end := LastIndexOfChar(s, '}');
      if end > start {
        assert s[start..][end - start] == '}';
      }
    }
  }

  /** The last occurrence of a character is at or after any occurrence. */
  lemma {:induction false} LastAtLeast(s: string, c: char, k: nat)
    requires k < |s| && s[k] == c
    ensures LastIndexOfChar(s, c) >= k
    decreases |s|
  {
    if s[|s| - 1] != c {
      var t := s[..|s| - 1];
      assert t[k] == c;
      LastAtLeast(t, c, k);
    }
  }

  /** A document that wraps a brace-delimited object in a `json` fence, after
      some backtick-free preamble, yields that object. */
  lemma FencedRoundTrip(pre: string, body: string, post: string)
    requires '`' !in pre
    requires IsTrimmed(body) && Braced(body)
    requires !Contains(body, Fence)
    ensures ExtractJsonFromText(pre + "```json\n" + body + "\n```" + post) == body
  {
    FencedBodyOf(pre, body, post);
    ExtractFenced(pre + "```json\n" + body + "\n```" + post, body);
  }

  /** A brace-delimited fenced body is what the extraction returns. */
  lemma ExtractFenced(s: string, body: string)
    requires FencedBody(s) == Some(body)
    requires Braced(body)
    ensures ExtractJsonFromText(s) == body
  {
    assert ExtractJsonFromText(s) == PickJson(Some(body), s);
  }

  /** The fenced body of such a document is the wrapped text. */
  lemma FencedBodyOf(pre: string, body: string, post: string)
    requires '`' !in pre
    requires IsTrimmed(body) && body != []
    requires !Contains(body, Fence)
    ensures FencedBody(pre + "```json\n" + body + "\n```" + post) == Some(body)
  {
    var s := pre + "```json\n" + body + "\n```" + post;
    var n := |pre|;
    assert IndexOf(s, Fence) == n by {
      FencedLayout(pre, body, post);
      assert pre + s[n..] == s;
      FirstFence(pre, s[n..]);
    }
    assert IndexOf(s[n + 7..], Fence) == |body| + 2 by {
      FencedLayout(pre, body, post);
      CloseFence(body, post);
    }
    assert s[n + 3..n + 7] == "json" && s[n + 7..n + 9 + |body|] == "\n" + body + "\n" by {
      FencedLayout(pre, body, post);
    }
    FencedBodyAt(s, n, body);
  }

  /** A `json` fence at `n`, closed right after the newline that ends
      `body`, holds `body`. */
  lemma FencedBodyAt(s: string, n: nat, body: string)
    requires IsTrimmed(body) && body != []
    requires n + 9 + |body| <= |s|
    requires IndexOf(s, Fence) == n && s[n + 3..n + 7] == "json"
    requires IndexOf(s[n + 7..], Fence) == |body| + 2
    requires s[n + 7..n + 9 + |body|] == "\n" + body + "\n"
    ensures FencedBody(s) == Some(body)
  {
    var m := |body| + 2;
    JsonTagOpens(s, n);
    FencedRawFrom(s, n, m);
    assert n + 7 + m == n + 9 + |body|;
    assert s[n + 7..n + 7 + m] == "\n" + body + "\n";
    TrimNewlines(body);
  }

  lemma JsonTagOpens(s: string, n: nat)
    requires n + 7 <= |s| && s[n + 3..n + 7] == "json"
    ensures OpenEnd(s, n) == n + 7
  {
    assert s[n + 3] == 'j' && s[n + 4] == 's' && s[n + 5] == 'o' && s[n + 6] == 'n';
  }

  /** The fenced text in terms of the two fences found. */
  lemma FencedRawFrom(s: string, n: nat, m: nat)
    requires IndexOf(s, Fence) == n && n + 3 <= |s| && OpenEnd(s, n) == n + 7
    requires IndexOf(s[n + 7..], Fence) == m
    ensures n + 7 + m <= |s|
    ensures FencedRaw(s) == Some(s[n + 7..n + 7 + m])
  {
    RawAfterAt(s, n, m);
  }

  lemma RawAfterAt(s: string, n: nat, m: nat)
    requires n + 3 <= |s| && OpenEnd(s, n) == n + 7
    requires IndexOf(s[n + 7..], Fence) == m
    ensures n + 7 + m <= |s|
    ensures RawAfter(s, n) == Some(s[n + 7..n + 7 + m])
  {
  }

  /** Where the pieces of a fenced document sit. */
  lemma FencedLayout(pre: string, body: string, post: string)
    ensures var s := pre + "```json\n" + body + "\n```" + post;
      && s[..|pre|] == pre
      && s[|pre|..][..3] == Fence
      && s[|pre| + 3..|pre| + 7] == "json"
      && s[|pre| + 7..] == "\n" + body + "\n```" + post
      && s[|pre| + 7..|pre| + 9 + |body|] == "\n" + body + "\n"
  {
  }

  /** The first fence of a text is the one after its backtick-free preamble. */
  lemma FirstFence(pre: string, tail: string)
    requires '`' !in pre
    requires |tail| >= 3 && tail[..3] == Fence
    ensures IndexOf(pre + tail, Fence) == |pre|
  {
    var s := pre + tail;
    var n := |pre|;
    assert s[n..n + 3] == tail[..3];
    forall j: nat | j < n
      ensures !OccursAt(s, Fence, j)
    {
      assert s[j] == pre[j];
    }
    IndexOfIs(s, Fence, n);
  }

  /** The closing fence after a fence-free body on its own lines is found
      right after the body's trailing newline. */
  lemma CloseFence(body: string, post: string)
    requires !Contains(body, Fence)
    ensures IndexOf("\n" + body + "\n```" + post, Fence) == |body| + 2
  {
    var rest := "\n" + body + "\n```" + post;
    var m := |body| + 2;
    assert rest[0] == '\n' && rest[m - 1] == '\n';
    assert rest[1..m - 1] == body;
    assert rest[m..m + 3] == Fence;
    FenceAfterBody(rest, body);
  }

  /** The same, for any text laid out as newline, body, newline, fence. */
  lemma FenceAfterBody(rest: string, body: string)
    requires |body| + 5 <= |rest| && !Contains(body, Fence)
    requires rest[0] == '\n' && rest[|body| + 1] == '\n'
    requires rest[1..|body| + 1] == body && rest[|body| + 2..|body| + 5] == Fence
    ensures IndexOf(rest, Fence) == |body| + 2
  {
    var m := |body| + 2;
    forall j: nat | j < m
      ensures !OccursAt(rest, Fence, j)
    {
      if j == 0 || j == m - 1 {
        assert rest[j..j + 3][0] == rest[j];
      } else if j + 3 <= m - 1 {
        var inner := rest[1..|body| + 1];
        var a, b := rest[j..j + 3], body[j - 1..j + 2];
        forall k | 0 <= k < 3 ensures a[k] == b[k] {
          assert b[k] == inner[j - 1 + k];
        }
        assert a == b;
        if OccursAt(rest, Fence, j) {
          ContainsAt(body, Fence, j - 1);
        }
      } else {
        assert rest[j..j + 3][m - 1 - j] == rest[m - 1];
      }
    }
    IndexOfIs(rest, Fence, m);
  }

  lemma TrimNewlines(body: string)
    requires IsTrimmed(body) && body != []
    ensures Trim("\n" + body + "\n") == body
  {
    var x := "\n" + body + "\n";
    assert x[1..] == body + "\n";
    assert TrimStart(x) == TrimStart(x[1..]);
    assert TrimStart(body + "\n") == body + "\n";
    var y := body + "\n";
    assert y[..|y| - 1] == body;
    assert TrimEnd(y) == TrimEnd(body);
    assert TrimEnd(body) == body;
  }

  /** The value the answer parses to: the whole text first, and only when
      that is not truthy, the extracted object text. */
  function ParseStep(text: string, parseJson: JsonParser): (o: Option<JVal>)
    ensures Present(parseJson(text)) ==> o == parseJson(text)
    ensures !Present(parseJson(text)) && ExtractJsonFromText(text) == [] ==> o.None?
    ensures !Present(parseJson(text)) && ExtractJsonFromText(text) != [] ==> o == parseJson(ExtractJsonFromText(text))
  {
    var direct := parseJson(text);
    if Present(direct) then direct
    else
      var extracted := ExtractJsonFromText(text);
      if extracted == [] then None else parseJson(extracted)
  }

  // ---------------------------------------------------------------------------
  // Paragraphs
  // ---------------------------------------------------------------------------

  /** The end of the run of newlines that starts at `i`. */
  function NewlineRunEnd(s: string, i: nat): (j: nat)
    requires i <= |s|
    ensures i <= j <= |s|
    ensures forall k :: i <= k < j ==> s[k] == '\n'
    ensures j < |s| ==> s[j] != '\n'
    decreases |s| - i
  {
    if i < |s| && s[i] == '\n' then NewlineRunEnd(s, i + 1) else i
  }

  const Break: string := "\n\n"

  /** `s.split(/\n{2,}/g)`: every maximal run of two or more newlines cuts. */
  function SplitBreaks(s: string): (parts: seq<string>)
    ensures |parts| >= 1
    decreases |s|
  {
    var i := IndexOf(s, Break);
    if i < 0 then [s]
    else
      IndexOfFirst(s, Break);
      assert s[i..i + 2] == Break;
      assert s[i..i + 2][0] == s[i] && s[i..i + 2][1] == s[i + 1];
      var j := NewlineRunEnd(s, i);
      [s[..i]] + SplitBreaks(s[j..])
  }

  /** `splitParagraphs(text)`: the non-empty trimmed pieces between breaks. */
  function SplitParagraphs(text: string): (ps: seq<string>)
    ensures forall p :: p in ps ==> p != [] && IsTrimmed(p)
  {
    NonEmpty(TrimEach(SplitBreaks(Trim(text))))
  }

  /** A blank text has no paragraphs. */
  lemma SplitParagraphsBlank(text: string)
    requires IsBlank(text)
    ensures SplitParagraphs(text) == []
  {
    assert SplitBreaks([]) == [[]];
    assert TrimEach([[]]) == [[]];
  }

  /** A paragraph as a writer would lay it out: non-empty, trimmed, and free
      of blank-line breaks. */
  predicate WellFormedParagraph(p: string) {
    p != [] && IsTrimmed(p) && !Contains(p, Break)
  }

  /** Paragraphs joined by a blank line split back into themselves. */
  lemma ParagraphsRoundTrip(ps: seq<string>)
    requires forall k :: 0 <= k < |ps| ==> WellFormedParagraph(ps[k])
    ensures SplitParagraphs(Join(ps, Break)) == ps
  {
    if |ps| == 0 {
      SplitParagraphsBlank([]);
    } else {
      var s := Join(ps, Break);
      JoinTrimmed(ps);
      TrimmedFixpoint(s);
      assert Trim(s) == s;
      SplitBreaksJoin(ps);
      assert SplitBreaks(s) == ps;
      TrimEachTrimmed(ps);
      assert TrimEach(ps) == ps;
      assert forall k :: 0 <= k < |ps| ==> ps[k] != [];
      assert NonEmpty(ps) == ps;
    }
  }

  /** Joining well-formed paragraphs gives a trimmed, non-empty text that
      starts with the first paragraph. */
  lemma {:induction false} JoinTrimmed(ps: seq<string>)
    requires |ps| >= 1
    requires forall k :: 0 <= k < |ps| ==> WellFormedParagraph(ps[k])
    ensures var s := Join(ps, Break); s != [] && IsTrimmed(s) && s[0] == ps[0][0]
    decreases |ps|
  {
    if |ps| > 1 {
      JoinTrimmed(ps[1..]);
      TrimmedGlue(ps[0], Break, Join(ps[1..], Break));
    }
  }

  lemma {:induction false} SplitBreaksJoin(ps: seq<string>)
    requires |ps| >= 1
    requires forall k :: 0 <= k < |ps| ==> WellFormedParagraph(ps[k])
    ensures SplitBreaks(Join(ps, Break)) == ps
    decreases |ps|
  {
    var s := Join(ps, Break);
    var p0 := ps[0];
    if |ps| == 1 {
      IndexOfFirst(s, Break);
      if IndexOf(s, Break) >= 0 {
        ContainsAt(p0, Break, IndexOf(s, Break));
      }
    } else {
      var rest := Join(ps[1..], Break);
      var n := |p0|;
      assert s == p0 + Break + rest;
      assert s[..n] == p0 && s[n..n + 2] == Break && s[n + 2..] == rest;
      assert IndexOf(s, Break) == n by {
        BreakAfterParagraph(s, p0);
      }
      assert NewlineRunEnd(s, n) == n + 2 by {
        JoinTrimmed(ps[1..]);
        assert s[n + 2] == rest[0] && rest[0] != '\n';
        assert NewlineRunEnd(s, n + 2) == n + 2;
      }
      SplitBreaksJoin(ps[1..]);
    }
  }

  /** The first break of a text that opens with a well-formed paragraph and
      a break is that break. */
  lemma BreakAfterParagraph(s: string, p0: string)
    requires WellFormedParagraph(p0)
    requires |p0| + 2 <= |s| && s[..|p0|] == p0 && s[|p0|..|p0| + 2] == Break
    ensures IndexOf(s, Break) == |p0|
  {
    var n := |p0|;
    forall j: nat | j < n
      ensures !OccursAt(s, Break, j)
    {
      if j + 2 <= n {
        var a, b := s[j..j + 2], p0[j..j + 2];
        assert a[0] == b[0] && a[1] == b[1];
        assert a == b;
        if OccursAt(s, Break, j) {
          ContainsAt(p0, Break, j);
        }
      } else {
        assert s[j..j + 2][0] == p0[n - 1];
      }
    }
    IndexOfIs(s, Break, n);
  }

  // ---------------------------------------------------------------------------
  // Section alerts
  // ---------------------------------------------------------------------------

  /** The sections as `Object.entries` lists them. */
  function SectionPairs(s: Sections): (ps: seq<(string, string)>)
    ensures |ps| == |SectionKeys|
    ensures forall k :: 0 <= k < |ps| ==> ps[k] == (SectionKeys[k], Values(s)[k])
  {
    seq(|SectionKeys|, k requires 0 <= k < |SectionKeys| => (SectionKeys[k], Values(s)[k]))
  }

  const EmptyCode: string := "EMPTY_SECTION"

  function EmptySectionAlert(key: string): Alert {
    Alert(LevelWarn, EmptyCode, "A seção '" + key + "' está vazia ou não foi gerada pelo modelo.")
  }

  /** `ix` lists, in increasing order, exactly the positions of `pairs`
      whose text is "": no list but one meets this. */
  predicate IndexesOfEmpty(pairs: seq<(string, string)>, ix: seq<nat>) {
    && (forall j :: 0 <= j < |ix| ==> ix[j] < |pairs| && pairs[ix[j]].1 == [])
    && (forall j, j' :: 0 <= j < j' < |ix| ==> ix[j] < ix[j'])
    && (forall i :: 0 <= i < |pairs| && pairs[i].1 == [] ==> i in ix)
  }

  /** Every position moved one place on. */
  function Shift(xs: seq<nat>): (ys: seq<nat>)
    ensures |ys| == |xs| && forall j :: 0 <= j < |xs| ==> ys[j] == xs[j] + 1
  {
    seq(|xs|, j requires 0 <= j < |xs| => xs[j] + 1)
  }

  /** The position 0 when the first text is empty. */
  function HeadIndex(pairs: seq<(string, string)>): seq<nat>
    requires pairs != []
  {
    if pairs[0].1 == [] then [0] else []
  }

  /** The positions of the empty sections. */
  function EmptyIndexes(pairs: seq<(string, string)>): (ix: seq<nat>)
    ensures IndexesOfEmpty(pairs, ix)
    decreases |pairs|
  {
    if pairs == [] then []
    else
      var rest := EmptyIndexes(pairs[1..]);
      IndexesStep(pairs, rest);
      HeadIndex(pairs) + Shift(rest)
  }

  /** The positions of a tail, moved on, after the head's own. */
  lemma IndexesStep(pairs: seq<(string, string)>, rest: seq<nat>)
    requires pairs != [] && IndexesOfEmpty(pairs[1..], rest)
    ensures IndexesOfEmpty(pairs, HeadIndex(pairs) + Shift(rest))
  {
    var h := HeadIndex(pairs);
    var s := Shift(rest);
    var ix := h + s;
    forall j | 0 <= j < |ix| ensures ix[j] < |pairs| && pairs[ix[j]].1 == [] {
      if j >= |h| {
        assert ix[j] == rest[j - |h|] + 1;
        assert pairs[1..][rest[j - |h|]] == pairs[ix[j]];
      }
    }
    forall i | 0 <= i < |pairs| && pairs[i].1 == [] ensures i in ix {
      if i > 0 {
        assert pairs[1..][i - 1] == pairs[i];
        var k :| 0 <= k < |rest| && rest[k] == i - 1;
        assert ix[|h| + k] == i;
      }
    }
  }

  /** `alertOnEmptySections`: one warning per empty section, in key order. */
  function EmptySectionAlerts(pairs: seq<(string, string)>): (r: seq<Alert>)
    ensures |r| <= |pairs|
    ensures r == [] <==> forall k :: 0 <= k < |pairs| ==> pairs[k].1 != []
    ensures forall k :: 0 <= k < |pairs| && pairs[k].1 == [] ==> EmptySectionAlert(pairs[k].0) in r
    ensures forall i :: 0 <= i < |r| ==> r[i].level == LevelWarn && r[i].code == EmptyCode
    ensures CountCode(r, EmptyCode) == |r|
    decreases |pairs|
  {
    if |pairs| == 0 then []
    else
      var rest := EmptySectionAlerts(pairs[1..]);
      var head := if pairs[0].1 == [] then [EmptySectionAlert(pairs[0].0)] else [];
      assert forall k :: 1 <= k < |pairs| ==> pairs[k] == pairs[1..][k - 1];
      CountCodeConcat(head, rest, EmptyCode);
      head + rest
  }

  /** One warning per listed position, naming that position's key. */
  function AlertsAt(pairs: seq<(string, string)>, ix: seq<nat>): seq<Alert>
    requires forall j :: 0 <= j < |ix| ==> ix[j] < |pairs|
  {
    seq(|ix|, j requires 0 <= j < |ix| => EmptySectionAlert(pairs[ix[j]].0))
  }

  /** The warnings are exactly one per empty position, in increasing
      order, naming that position's key: a section with text has none. */
  lemma {:induction false} EmptySectionAlertsExact(pairs: seq<(string, string)>)
    ensures EmptySectionAlerts(pairs) == AlertsAt(pairs, EmptyIndexes(pairs))
    decreases |pairs|
  {
    if pairs != [] {
      EmptySectionAlertsExact(pairs[1..]);
      AlertsAtStep(pairs, EmptyIndexes(pairs[1..]));
    }
  }

  lemma AlertsAtStep(pairs: seq<(string, string)>, rest: seq<nat>)
    requires pairs != [] && forall j :: 0 <= j < |rest| ==> rest[j] < |pairs| - 1
    ensures AlertsAt(pairs, HeadIndex(pairs) + Shift(rest))
            == (if pairs[0].1 == [] then [EmptySectionAlert(pairs[0].0)] else []) + AlertsAt(pairs[1..], rest)
  {
    var h := HeadIndex(pairs);
    var ix := h + Shift(rest);
    var a := AlertsAt(pairs, ix);
    var b := (if pairs[0].1 == [] then [EmptySectionAlert(pairs[0].0)] else []) + AlertsAt(pairs[1..], rest);
    assert |a| == |b|;
    forall j | 0 <= j < |a| ensures a[j] == b[j] {
      if j >= |h| {
        assert ix[j] == rest[j - |h|] + 1;
        assert pairs[1..][rest[j - |h|]] == pairs[ix[j]];
      }
    }
  }

  function TooShort(key: string, count: nat, min: string): Alert {
    Alert(LevelWarn, "PARAGRAPH_TOO_SHORT",
      "A seção '" + key + "' possui apenas " + NatToString(count) + " parágrafos (mínimo: " + min + ").")
  }

  function TooLong(key: string, count: nat, max: string): Alert {
    Alert(LevelWarn, "PARAGRAPH_TOO_LONG",
      "A seção '" + key + "' possui " + NatToString(count) + " parágrafos (máximo: " + max + ").")
  }

  /** `count < bound` in JavaScript: the bound converted to a number; NaN
      compares false. */
  predicate CountBelow(c: Coercion, count: nat, bound: JVal) {
    var n := ToNumber(c, Some(bound));
    n.Some? && (count as real) < n.value
  }

  predicate CountAbove(c: Coercion, count: nat, bound: JVal) {
    var n := ToNumber(c, Some(bound));
    n.Some? && (count as real) > n.value
  }

  /** The checks for one section against its guidance entry `cfg`. */
  function LimitAlerts(c: Coercion, key: string, text: string, cfg: Option<JVal>): (r: seq<Alert>)
    ensures !Present(cfg) ==> r == []
    ensures |r| <= 2
    ensures forall code :: code != ShortCode && code != LongCode ==> CountCode(r, code) == 0
    ensures forall i :: 0 <= i < |r| ==> r[i].level == LevelWarn
  {
    if !Present(cfg) then [] else CountAlerts(c, key, |SplitParagraphs(text)|, cfg.value)
  }

  const ShortCode: string := "PARAGRAPH_TOO_SHORT"
  const LongCode: string := "PARAGRAPH_TOO_LONG"

  /** The alerts for a section of `count` paragraphs: too short exactly when
      a truthy minimum exceeds the count, too long exactly when a truthy
      maximum is below it, short before long. */
  function CountAlerts(c: Coercion, key: string, count: nat, cfg: JVal): (r: seq<Alert>)
    ensures |r| <= 2
    ensures CountCode(r, ShortCode) == if MinViolated(c, count, cfg) then 1 else 0
    ensures CountCode(r, LongCode) == if MaxViolated(c, count, cfg) then 1 else 0
    ensures forall code :: code != ShortCode && code != LongCode ==> CountCode(r, code) == 0
    ensures forall i :: 0 <= i < |r| ==> r[i].level == LevelWarn
  {
    var mn := Get(cfg, "minParagraphs");
    var mx := Get(cfg, "maxParagraphs");
    var tooShort := TooShort(key, count, if mn.Some? then ToStr(c, mn.value) else []);
    var tooLong := TooLong(key, count, if mx.Some? then ToStr(c, mx.value) else []);
    var short := if MinViolated(c, count, cfg) then [tooShort] else [];
    var long := if MaxViolated(c, count, cfg) then [tooLong] else [];
    ShortThenLong(tooShort, tooLong, MinViolated(c, count, cfg), MaxViolated(c, count, cfg));
    short + long
  }

  /** At most one short and one long warning, each present exactly when its
      condition holds. */
  lemma ShortThenLong(x: Alert, y: Alert, p: bool, q: bool)
    requires x == Alert(LevelWarn, ShortCode, x.message) && y == Alert(LevelWarn, LongCode, y.message)
    ensures var r := (if p then [x] else []) + (if q then [y] else []);
            && |r| <= 2
            && CountCode(r, ShortCode) == (if p then 1 else 0)
            && CountCode(r, LongCode) == (if q then 1 else 0)
            && (forall code :: code != ShortCode && code != LongCode ==> CountCode(r, code) == 0)
            && (forall i :: 0 <= i < |r| ==> r[i].level == LevelWarn)
  {
    var short := if p then [x] else [];
    var long := if q then [y] else [];
    CountCodeConcatAll(short, long);
    CountCodeOne(x);
    CountCodeOne(y);
  }

  predicate MinViolated(c: Coercion, count: nat, cfg: JVal) {
    var mn := Get(cfg, "minParagraphs");
    Present(mn) && CountBelow(c, count, mn.value)
  }

  predicate MaxViolated(c: Coercion, count: nat, cfg: JVal) {
    var mx := Get(cfg, "maxParagraphs");
    Present(mx) && CountAbove(c, count, mx.value)
  }

  /** `validateParagraphLimits(sections, guidance)`, in key order. */
  function ParagraphAlerts(c: Coercion, pairs: seq<(string, string)>, guidance: JVal): (r: seq<Alert>)
    ensures (forall k :: 0 <= k < |pairs| ==> !Present(Get(guidance, pairs[k].0))) ==> r == []
    ensures forall code :: code != ShortCode && code != LongCode ==> CountCode(r, code) == 0
    ensures forall a :: a in r ==> a.level == LevelWarn
    decreases |pairs|
  {
    if |pairs| == 0 then []
    else
      var head := LimitAlerts(c, pairs[0].0, pairs[0].1, Get(guidance, pairs[0].0));
      var rest := ParagraphAlerts(c, pairs[1..], guidance);
      assert forall k :: 1 <= k < |pairs| ==> pairs[k] == pairs[1..][k - 1];
      CountCodeConcatAll(head, rest);
      head + rest
  }

  /** A section written as well-formed paragraphs `ps` is judged by `|ps|`:
      too short exactly when below a truthy minimum, too long exactly when
      above a truthy maximum. */
  lemma LimitsOnParagraphs(c: Coercion, key: string, ps: seq<string>, cfg: JVal)
    requires Truthy(cfg)
    requires forall k :: 0 <= k < |ps| ==> WellFormedParagraph(ps[k])
    ensures LimitAlerts(c, key, Join(ps, Break), Some(cfg)) == CountAlerts(c, key, |ps|, cfg)
  {
    ParagraphsRoundTrip(ps);
  }

  /** An empty section counts zero paragraphs, so it is never too long and is
      too short for any truthy minimum above zero. */
  lemma EmptySectionLimits(c: Coercion, key: string, cfg: JVal)
    requires Truthy(cfg)
    ensures LimitAlerts(c, key, [], Some(cfg)) == CountAlerts(c, key, 0, cfg)
  {
    SplitParagraphsBlank([]);
  }

  // ---------------------------------------------------------------------------
  // Model alerts
  // ---------------------------------------------------------------------------

  predicate IsLevel(level: string) {
    level == LevelInfo || level == LevelWarn || level == LevelError
  }

  /** `normAlert(a)`: the level lower-cased and forced into info/warn/error,
      the code and message defaulted. */
  function NormAlert(c: Coercion, a: JVal): (r: Alert)
    ensures IsLevel(r.level)
    ensures !Present(Get(a, "code")) ==> r.code == "MODEL_ALERT"
    ensures !Present(Get(a, "message")) ==> r.message == "Alerta retornado pelo modelo."
  {
    DefaultText(c, Get(a, "code"), "MODEL_ALERT");
    DefaultText(c, Get(a, "message"), "Alerta retornado pelo modelo.");
    Alert(
      NormLevel(c, Get(a, "level")),
      StrOr(c, Some(Or(Get(a, "code"), JStr("MODEL_ALERT")))),
      StrOr(c, Some(Or(Get(a, "message"), JStr("Alerta retornado pelo modelo.")))))
  }

  /** `String(v || d)` is `d` when `v` is absent or falsy. */
  lemma DefaultText(c: Coercion, o: Option<JVal>, d: string)
    requires d != []
    ensures !Present(o) ==> StrOr(c, Some(Or(o, JStr(d)))) == d
  {
  }

  /** `String(level || "info").toLowerCase()`, kept only when it names one of
      the three levels. */
  function NormLevel(c: Coercion, level: Option<JVal>): (r: string)
    ensures IsLevel(r)
    ensures !Present(level) ==> r == LevelInfo
    ensures Present(level) && IsLevel(Lower(ToStr(c, level.value))) ==> r == Lower(ToStr(c, level.value))
  {
    var t := Lower(StrOr(c, Some(Or(level, JStr(LevelInfo)))));
    if IsLevel(t) then t else LevelInfo
  }

  /** A level already in lower case survives normalisation. */
  lemma LevelsAreLower()
    ensures Lower(LevelInfo) == LevelInfo && Lower(LevelWarn) == LevelWarn && Lower(LevelError) == LevelError
  {
  }

  /** An alert already in normal form comes back unchanged. */
  lemma NormAlertFixpoint(c: Coercion, x: Alert)
    requires IsLevel(x.level) && x.code != [] && x.message != []
    ensures NormAlert(c, AlertToJson(x)) == x
  {
    var v := AlertToJson(x);
    var es := v.entries;
    assert UniqueKeys(es);
    LookupAt(es, 0);
    LookupAt(es, 1);
    LookupAt(es, 2);
    assert Get(v, "level") == Some(JStr(x.level));
    assert Get(v, "code") == Some(JStr(x.code));
    assert Get(v, "message") == Some(JStr(x.message));
    NormLevelKeeps(c, x.level);
  }

  /** A present level that is already one of the three is kept as it is. */
  lemma NormLevelKeeps(c: Coercion, level: string)
    requires IsLevel(level)
    ensures NormLevel(c, Some(JStr(level))) == level
  {
    LevelsAreLower();
    assert Lower(ToStr(c, JStr(level))) == level;
  }

  /** `obj.alerts.map(normAlert)`, or nothing when `alerts` is not an array. */
  function ModelAlerts(c: Coercion, alerts: Option<JVal>): (r: seq<Alert>)
    ensures alerts.None? || !alerts.value.JArr? ==> r == []
    ensures alerts.Some? && alerts.value.JArr? ==> |r| == |alerts.value.items|
    ensures forall a :: a in r ==> IsLevel(a.level)
  {
    if alerts.Some? && alerts.value.JArr? then
      seq(|alerts.value.items|, k requires 0 <= k < |alerts.value.items| => NormAlert(c, alerts.value.items[k]))
    else []
  }

  // ---------------------------------------------------------------------------
  // parseModel
  // ---------------------------------------------------------------------------

  /** The parsed object, when the text is non-empty and yields one. */
  function ParsedObject(c: Coercion, raw: Option<JVal>, parseJson: JsonParser): Option<JVal> {
    var text := GetText(c, raw);
    if text == [] then None else ParseStep(text, parseJson)
  }

  /** The template version a parsed object names, defaulted. */
  function TemplateVersion(c: Coercion, obj: JVal): (v: string)
    ensures !Present(GetOpt(Get(obj, "meta"), "templateVersion")) ==> v == DefaultTemplateVersion
  {
    StrOr(c, Some(Or(GetOpt(Get(obj, "meta"), "templateVersion"), JStr(DefaultTemplateVersion))))
  }

  /** The output meta: the object's own `meta` when it is an object (an array
      by its index-keyed entries), else `{}`, with a falsy `templateVersion`
      replaced. */
  function OutputMeta(c: Coercion, obj: JVal): (es: seq<(string, JVal)>)
    ensures Present(Lookup(es, "templateVersion"))
  {
    var m := Get(obj, "meta");
    var base := if Present(m) && IsObjectLike(m.value) then Entries(m.value) else [];
    var tv := Lookup(base, "templateVersion");
    if Present(tv) then base else SetKey(base, "templateVersion", JStr(TemplateVersion(c, obj)))
  }

  /** `parseModel(modelRaw)` with `loadSectionGuidance` supplied as
      `guidanceFor`. Errors carry no status code. */
  function ParseModel(c: Coercion, raw: Option<JVal>, parseJson: JsonParser, guidanceFor: string -> JVal)
    : (r: Result<Envelope, Thrown>)
    ensures GetText(c, raw) == [] ==> r == Failure(Thrown(EmptyResponseMessage, 0))
    ensures r.Failure? ==>
      r.error.statusCode == 0 && r.error.message in {EmptyResponseMessage, NotJsonMessage, NoSectionsMessage}
    ensures var o := ParsedObject(c, raw, parseJson);
      r.Success? <==> (Present(o) && IsObjectLike(o.value) && HasSectionsObject(o.value))
    ensures r.Success? ==> var obj := ParsedObject(c, raw, parseJson).value;
      r.value == BuildEnvelope(c, obj, guidanceFor(TemplateVersion(c, obj)))
  {
    var text := GetText(c, raw);
    if text == [] then Failure(Thrown(EmptyResponseMessage, 0))
    else
      var o := ParseStep(text, parseJson);
      if !Present(o) || !IsObjectLike(o.value) then Failure(Thrown(NotJsonMessage, 0))
      else if !HasSectionsObject(o.value) then Failure(Thrown(NoSectionsMessage, 0))
      else Success(BuildEnvelope(c, o.value, guidanceFor(TemplateVersion(c, o.value))))
  }

  /** `obj.sections` is a non-array object. */
  predicate HasSectionsObject(obj: JVal) {
    Get(obj, "sections").Some? && Get(obj, "sections").value.JObj?
  }

  /** The envelope a parsed object with a `sections` object turns into. */
  function BuildEnvelope(c: Coercion, obj: JVal, guidance: JVal): (e: Envelope)
    requires HasSectionsObject(obj)
    ensures e.ok && e.sections == SectionsFromJson(Get(obj, "sections").value)
    ensures AllTrimmed(e.sections)
    ensures Get(obj, "html").Some? && Get(obj, "html").value.JStr? ==> e.html == Get(obj, "html").value.str
    ensures !(Get(obj, "html").Some? && Get(obj, "html").value.JStr?) ==> e.html == []
    ensures Present(Lookup(e.meta, "templateVersion"))
    ensures e.alerts == ModelAlerts(c, Get(obj, "alerts"))
      + ParagraphAlerts(c, SectionPairs(e.sections), guidance) + EmptySectionAlerts(SectionPairs(e.sections))
  {
    var sections := SectionsFromJson(Get(obj, "sections").value);
    var pairs := SectionPairs(sections);
    var html := Get(obj, "html");
    var missing := Get(obj, "missing");
    Envelope(
      true,
      if html.Some? && html.value.JStr? then html.value.str else [],
      sections,
      ModelAlerts(c, Get(obj, "alerts")) + ParagraphAlerts(c, pairs, guidance) + EmptySectionAlerts(pairs),
      if missing.Some? && missing.value.JArr? then missing.value.items else [],
      OutputMeta(c, obj))
  }

  /** Alerts appended after a code-free middle part add exactly their own
      count of that code, and the first part stays in front. */
  lemma AppendedCount(first: seq<Alert>, middle: seq<Alert>, last: seq<Alert>, code: string)
    requires CountCode(middle, code) == 0
    ensures CountCode(first + middle + last, code) == CountCode(first, code) + CountCode(last, code)
    ensures (first + middle + last)[..|first|] == first
  {
    CountCodeConcat(first + middle, last, code);
    CountCodeConcat(first, middle, code);
    assert (first + middle + last)[..|first|] == first;
  }

  /** The model's own alerts come first, and the envelope carries one
      `EMPTY_SECTION` warning per empty section beyond any the model sent;
      there are none of those exactly when every section has text. The
      envelope's alerts end with these warnings, one per empty position in
      increasing order (`SectionAlertsByKey` names their keys). */
  lemma EmptySectionWarnings(c: Coercion, obj: JVal, guidance: JVal)
    requires HasSectionsObject(obj)
    ensures var e := BuildEnvelope(c, obj, guidance);
      var model := ModelAlerts(c, Get(obj, "alerts"));
      var extra := CountCode(e.alerts, EmptyCode) - CountCode(model, EmptyCode);
      && |model| <= |e.alerts| && e.alerts[..|model|] == model
      && extra == |EmptySectionAlerts(SectionPairs(e.sections))|
      && (extra == 0 <==> forall k :: 0 <= k < |SectionKeys| ==> Values(e.sections)[k] != [])
    ensures var e := BuildEnvelope(c, obj, guidance);
      var ix := EmptyIndexes(SectionPairs(e.sections));
      |ix| <= |e.alerts| && e.alerts[|e.alerts| - |ix|..] == AlertsAt(SectionPairs(e.sections), ix)
  {
    var e := BuildEnvelope(c, obj, guidance);
    var model := ModelAlerts(c, Get(obj, "alerts"));
    var pairs := SectionPairs(e.sections);
    assert e.alerts == model + ParagraphAlerts(c, pairs, guidance) + EmptySectionAlerts(pairs);
    AlertsAfterModel(c, model, pairs, guidance);
    PairsNonEmpty(e.sections);
    EnvelopeEndsWithEmpty(c, obj, guidance);
  }

  /** The envelope's alerts end with the empty-section warnings. */
  lemma EnvelopeEndsWithEmpty(c: Coercion, obj: JVal, guidance: JVal)
    requires HasSectionsObject(obj)
    ensures var e := BuildEnvelope(c, obj, guidance);
      var ix := EmptyIndexes(SectionPairs(e.sections));
      |ix| <= |e.alerts| && e.alerts[|e.alerts| - |ix|..] == AlertsAt(SectionPairs(e.sections), ix)
  {
    var e := BuildEnvelope(c, obj, guidance);
    var pairs := SectionPairs(e.sections);
    var front := ModelAlerts(c, Get(obj, "alerts")) + ParagraphAlerts(c, pairs, guidance);
    assert e.alerts == front + EmptySectionAlerts(pairs);
    EmptySectionAlertsExact(pairs);
    SuffixIsLast(front, EmptySectionAlerts(pairs));
  }

  lemma SuffixIsLast<T>(front: seq<T>, last: seq<T>)
    ensures (front + last)[|front + last| - |last|..] == last
  {
  }

  /** For the seven sections, the empty positions are exactly those of the
      empty sections, and their warnings name the keys in `SectionKeys`
      order. */
  lemma SectionAlertsByKey(s: Sections)
    ensures var pairs := SectionPairs(s);
      var ix := EmptyIndexes(pairs);
      && (forall j :: 0 <= j < |ix| ==> ix[j] < |SectionKeys| && Values(s)[ix[j]] == [])
      && (forall k :: 0 <= k < |SectionKeys| && Values(s)[k] == [] ==> k in ix)
      && AlertsAt(pairs, ix) == seq(|ix|, j requires 0 <= j < |ix| => EmptySectionAlert(SectionKeys[ix[j]]))
  {
    var pairs := SectionPairs(s);
    var ix := EmptyIndexes(pairs);
    assert forall k :: 0 <= k < |pairs| ==> pairs[k].0 == SectionKeys[k] && pairs[k].1 == Values(s)[k];
  }

  /** Every section pair has text exactly when every section has. */
  lemma PairsNonEmpty(s: Sections)
    ensures var pairs := SectionPairs(s);
            (forall k :: 0 <= k < |pairs| ==> pairs[k].1 != [])
            <==> (forall k :: 0 <= k < |SectionKeys| ==> Values(s)[k] != [])
  {
    var pairs := SectionPairs(s);
    var vs := Values(s);
    assert |pairs| == |vs|;
    assert forall k :: 0 <= k < |pairs| ==> pairs[k].1 == vs[k];
  }

  /** The same fact for any model alerts and any section pairs. */
  lemma AlertsAfterModel(c: Coercion, model: seq<Alert>, pairs: seq<(string, string)>, guidance: JVal)
    ensures var all := model + ParagraphAlerts(c, pairs, guidance) + EmptySectionAlerts(pairs);
      var extra := CountCode(all, EmptyCode) - CountCode(model, EmptyCode);
      && all[..|model|] == model
      && extra == |EmptySectionAlerts(pairs)|
      && (extra == 0 <==> forall k :: 0 <= k < |pairs| ==> pairs[k].1 != [])
  {
    AppendedCount(model, ParagraphAlerts(c, pairs, guidance), EmptySectionAlerts(pairs), EmptyCode);
  }
}
