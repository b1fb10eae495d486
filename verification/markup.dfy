/** Markup read as a sequence of tags and text runs. The report's renderers
    only ever write tags whose inner text holds no angle bracket, and escape
    every text they insert, so reading their output as tokens recovers how
    it was put together. */
module Markup {
  import opened Text

  /** One tag `<inner>`. */
  function Tag(inner: string): string {
    "<" + inner + ">"
  }

  /** A text that holds neither angle bracket, as a tag's inside must. */
  predicate Plain(x: string) {
    '<' !in x && '>' !in x
  }

  /** Plain texts one after the other stay plain. */
  lemma PlainConcat(a: string, b: string)
    requires Plain(a) && Plain(b)
    ensures Plain(a + b)
  {
    assert forall x :: x in a + b ==> x in a || x in b;
  }

  /** A piece of markup: a tag or a maximal run of text between tags. */
  datatype Token = TagTok(inner: string) | TextTok(text: string)

  /** The markup left to right: a `<` opens a tag that the next `>` closes,
      anything else runs up to the next `<`. A `<` never closed makes the
      rest one text run. */
  function Tokens(s: string): seq<Token>
    decreases |s|
  {
    if s == [] then []
    else if s[0] == '<' then
      var k := IndexOfChar(s[1..], '>');
      if k < 0 then [TextTok(s)]
      else [TagTok(s[1..k + 1])] + Tokens(s[k + 2..])
    else
      var k := IndexOfChar(s, '<');
      if k < 0 then [TextTok(s)]
      else [TextTok(s[..k])] + Tokens(s[k..])
  }

  /** The token of a text, or none for the empty text. */
  function TextTokens(t: string): seq<Token> {
    if t == [] then [] else [TextTok(t)]
  }

  /** The first `c` of `x + y` is the head of `y` when `x` has none. */
  lemma IndexOfCharAt(x: string, y: string, c: char)
    requires c !in x && y != [] && y[0] == c
    ensures IndexOfChar(x + y, c) == |x|
  {
    var s := x + y;
    assert s[|x|] == c;
    assert forall j :: 0 <= j < |x| ==> s[j] == x[j];
    assert c in s[..|x| + 1];
  }

  /** A tag is one token, whatever follows it. */
  lemma TokensTag(x: string, rest: string)
    requires Plain(x)
    ensures Tokens(Tag(x) + rest) == [TagTok(x)] + Tokens(rest)
  {
    var s := Tag(x) + rest;
    assert s[1..] == x + (">" + rest);
    IndexOfCharAt(x, ">" + rest, '>');
    assert s[1..|x| + 1] == x;
    assert s[|x| + 2..] == rest;
  }

  /** A text free of `<` followed by a tag, or by nothing, is one token. */
  lemma TokensText(t: string, rest: string)
    requires '<' !in t && (rest == [] || rest[0] == '<')
    ensures Tokens(t + rest) == TextTokens(t) + Tokens(rest)
  {
    if t == [] {
      assert t + rest == rest;
    } else {
      var s := t + rest;
      assert s[0] == t[0];
      if rest == [] {
        assert s == t;
      } else {
        IndexOfCharAt(t, rest, '<');
        assert s[..|t|] == t && s[|t|..] == rest;
      }
    }
  }

  /** A text free of `<` followed by a tag is that text's tokens and the
      tag's. */
  lemma TokensTextTag(t: string, x: string, rest: string)
    requires '<' !in t && Plain(x)
    ensures Tokens(t + (Tag(x) + rest)) == TextTokens(t) + ([TagTok(x)] + Tokens(rest))
  {
    TokensText(t, Tag(x) + rest);
    TokensTag(x, rest);
  }

  /** A piece of markup as a renderer writes it: a tag or an inserted
      text. */
  datatype Piece = PTag(inner: string) | PText(text: string)

  /** The markup one piece spells out. */
  function PieceText(p: Piece): string {
    match p
    case PTag(x) => Tag(x)
    case PText(t) => t
  }

  /** The tokens one piece is meant to read as. */
  function PieceToken(p: Piece): seq<Token> {
    match p
    case PTag(x) => [TagTok(x)]
    case PText(t) => TextTokens(t)
  }

  /** The markup the pieces spell out. */
  function Layout(ps: seq<Piece>): string
    decreases |ps|
  {
    if ps == [] then "" else PieceText(ps[0]) + Layout(ps[1..])
  }

  /** The tokens the pieces are meant to read as. */
  function PieceTokens(ps: seq<Piece>): seq<Token>
    decreases |ps|
  {
    if ps == [] then [] else PieceToken(ps[0]) + PieceTokens(ps[1..])
  }

  /** Every tag is plain and every text is free of `<` and followed by a
      tag: the pieces then read back as they were written. */
  predicate WellFormed(ps: seq<Piece>)
    decreases |ps|
  {
    ps == [] ||
    (&& (match ps[0] case PTag(x) => Plain(x) case PText(t) => '<' !in t && |ps| > 1 && ps[1].PTag?)
     && WellFormed(ps[1..]))
  }

  /** A layout that starts with a tag starts with `<`. */
  lemma LayoutOpens(ps: seq<Piece>, s: string)
    requires ps != [] && ps[0].PTag?
    ensures Layout(ps) + s != [] && (Layout(ps) + s)[0] == '<'
  {
    assert Layout(ps) + s == Tag(ps[0].inner) + (Layout(ps[1..]) + s);
  }

  /** What one piece may be followed by: anything after a plain tag, and
      markup that opens with a tag after a text free of `<`. */
  predicate StepOk(p: Piece, more: string) {
    && (p.PTag? ==> Plain(p.inner))
    && (p.PText? ==> '<' !in p.text && more != [] && more[0] == '<')
  }

  /** `tok` reads every piece in front of what may follow it as that
      piece's tokens. */
  ghost predicate ReadsPieces(tok: string -> seq<Token>) {
    forall p: Piece, more: string :: StepOk(p, more) ==> tok(PieceText(p) + more) == PieceToken(p) + tok(more)
  }

  /** One piece in front of markup that may follow it. */
  lemma TokensStep(p: Piece, more: string)
    requires StepOk(p, more)
    ensures Tokens(PieceText(p) + more) == PieceToken(p) + Tokens(more)
  {
    match p
    case PTag(x) => TokensTag(x, more);
    case PText(t) => TokensText(t, more);
  }

  /** Any reader of single pieces reads well-formed pieces whole. */
  lemma {:induction false} LayoutReads(ps: seq<Piece>, s: string, tok: string -> seq<Token>)
    requires WellFormed(ps) && ReadsPieces(tok)
    ensures tok(Layout(ps) + s) == PieceTokens(ps) + tok(s)
    decreases |ps|
  {
    if ps == [] {
      assert Layout(ps) + s == s;
    } else {
      var more := Layout(ps[1..]) + s;
      calc {
        tok(Layout(ps) + s);
        { LayoutCons(ps, s); }
        tok(PieceText(ps[0]) + more);
        { FirstStepOk(ps, s); }
        PieceToken(ps[0]) + tok(more);
        { LayoutReads(ps[1..], s, tok); }
        PieceToken(ps[0]) + (PieceTokens(ps[1..]) + tok(s));
        { Assoc(PieceToken(ps[0]), PieceTokens(ps[1..]), tok(s)); }
        (PieceToken(ps[0]) + PieceTokens(ps[1..])) + tok(s);
        PieceTokens(ps) + tok(s);
      }
    }
  }

  lemma Assoc<T>(a: seq<T>, b: seq<T>, c: seq<T>)
    ensures a + (b + c) == (a + b) + c
  {
  }

  lemma LayoutCons(ps: seq<Piece>, s: string)
    requires ps != []
    ensures Layout(ps) + s == PieceText(ps[0]) + (Layout(ps[1..]) + s)
  {
  }

  /** The first piece of well-formed pieces may be followed by the rest. */
  lemma FirstStepOk(ps: seq<Piece>, s: string)
    requires ps != [] && WellFormed(ps)
    ensures StepOk(ps[0], Layout(ps[1..]) + s) && WellFormed(ps[1..])
  {
    if ps[0].PText? {
      LayoutOpens(ps[1..], s);
    }
  }

  /** Well-formed pieces read back as their own tokens, whatever follows. */
  lemma TokensOfLayout(ps: seq<Piece>, s: string)
    requires WellFormed(ps)
    ensures Tokens(Layout(ps) + s) == PieceTokens(ps) + Tokens(s)
  {
    forall p: Piece, more: string | StepOk(p, more)
      ensures Tokens(PieceText(p) + more) == PieceToken(p) + Tokens(more)
    {
      TokensStep(p, more);
    }
    LayoutReads(ps, s, Tokens);
  }

  /** The layout of pieces one after the other. */
  lemma {:induction false} LayoutConcat(p: seq<Piece>, q: seq<Piece>)
    ensures Layout(p + q) == Layout(p) + Layout(q)
    decreases |p|
  {
    if p == [] {
      assert p + q == q;
    } else {
      assert (p + q)[0] == p[0] && (p + q)[1..] == p[1..] + q;
      LayoutConcat(p[1..], q);
      Assoc(PieceText(p[0]), Layout(p[1..]), Layout(q));
    }
  }

  /** The tokens of pieces one after the other. */
  lemma {:induction false} PieceTokensConcat(p: seq<Piece>, q: seq<Piece>)
    ensures PieceTokens(p + q) == PieceTokens(p) + PieceTokens(q)
    decreases |p|
  {
    if p == [] {
      assert p + q == q;
    } else {
      assert (p + q)[0] == p[0] && (p + q)[1..] == p[1..] + q;
      PieceTokensConcat(p[1..], q);
      Assoc(PieceToken(p[0]), PieceTokens(p[1..]), PieceTokens(q));
    }
  }

  /** Well-formed pieces one after the other stay well-formed. */
  lemma {:induction false} WellFormedConcat(p: seq<Piece>, q: seq<Piece>)
    requires WellFormed(p) && WellFormed(q)
    ensures WellFormed(p + q)
    decreases |p|
  {
    if p == [] {
      assert p + q == q;
    } else {
      assert (p + q)[0] == p[0] && (p + q)[1..] == p[1..] + q;
      WellFormedConcat(p[1..], q);
      if p[0].PText? {
        assert (p + q)[1] == p[1];
      }
    }
  }

  /** One piece spells itself. */
  lemma LayoutOne(x: Piece)
    ensures Layout([x]) == PieceText(x) && PieceTokens([x]) == PieceToken(x)
  {
    assert [x][1..] == [];
  }

  lemma Two(x: Piece, y: Piece)
    ensures Layout([x, y]) == PieceText(x) + PieceText(y)
    ensures PieceTokens([x, y]) == PieceToken(x) + PieceToken(y)
  {
    assert [x, y][1..] == [y];
    LayoutOne(y);
  }

  lemma Three(x: Piece, y: Piece, z: Piece)
    ensures Layout([x, y, z]) == PieceText(x) + PieceText(y) + PieceText(z)
    ensures PieceTokens([x, y, z]) == PieceToken(x) + PieceToken(y) + PieceToken(z)
  {
    var ps := [x, y, z];
    assert ps[0] == x && ps[1..] == [y, z];
    Two(y, z);
    assert Layout(ps) == PieceText(x) + Layout([y, z]);
    Assoc(PieceText(x), PieceText(y), PieceText(z));
    assert PieceTokens(ps) == PieceToken(x) + PieceTokens([y, z]);
    Assoc(PieceToken(x), PieceToken(y), PieceToken(z));
  }

  lemma WellFormedTextTag(t: string, y: string)
    requires '<' !in t && Plain(y)
    ensures WellFormed([PText(t), PTag(y)])
  {
    assert [PText(t), PTag(y)][1..] == [PTag(y)];
    assert [PTag(y)][1..] == [];
  }

  lemma WellFormedTagTextTag(x: string, t: string, y: string)
    requires Plain(x) && '<' !in t && Plain(y)
    ensures WellFormed([PTag(x), PText(t), PTag(y)])
  {
    assert [PTag(x), PText(t), PTag(y)][1..] == [PText(t), PTag(y)];
    WellFormedTextTag(t, y);
  }

  /** A text free of `<` in front of well-formed pieces that open with a
      tag. */
  lemma WellFormedTextFirst(t: string, q: seq<Piece>)
    requires '<' !in t && WellFormed(q) && q != [] && q[0].PTag?
    ensures WellFormed([PText(t)] + q)
  {
    assert ([PText(t)] + q)[1..] == q;
  }

  /** One tag is well-formed when it is plain. */
  lemma WellFormedTag(x: string)
    requires Plain(x)
    ensures WellFormed([PTag(x)])
  {
    assert [PTag(x)][1..] == [];
  }
}
