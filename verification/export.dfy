/** The DOCX export endpoint (`api/export/cobrancaDocx.js`) and the older
    variant it replaced (`cobrancaDocxOLD.js`). Both take the edited draft
    sections from `doc.sections`, check that all seven are strings and not
    all blank, lay the petition out as a sequence of paragraphs, and hand it
    to the packer and the blob store; every throw on the way, including the
    rate limiter's and the token guard's, is classified by the `catch` into
    504, the thrown status or 500. The document is modelled as its list of
    paragraphs; packing, upload and the clock are parameters. */
module Export {
  import opened Wrappers
  import opened Text
  import opened Json
  import opened Draft
  import RateLimit
  import Auth

  // ---------------------------------------------------------------------------
  // Field texts
  // ---------------------------------------------------------------------------

  const Pending := "[PENDENTE – INFORMAÇÃO NÃO FORNECIDA]"

  lemma PendingNotBlank()
    ensures !IsBlank(Pending)
  {
    BlankIffAllWs(Pending);
    assert !IsWs(Pending[0]);
  }

  /** `s(v)`: a string with some non-space text is used as it is, untrimmed;
      anything else becomes the pending marker. */
  function S(v: Option<JVal>): (r: string)
    ensures v.Some? && v.value.JStr? && !IsBlank(v.value.str) ==> r == v.value.str
  {
    if v.Some? && v.value.JStr? && !IsBlank(v.value.str) then v.value.str else Pending
  }

  /** `s` yields the given string or the marker. */
  lemma SGivenOrPending(v: Option<JVal>)
    ensures S(v) == Pending || v == Some(JStr(S(v)))
  {
  }

  /** `s` never yields a blank text. */
  lemma SNotBlank(v: Option<JVal>)
    ensures !IsBlank(S(v))
  {
    if !(v.Some? && v.value.JStr? && !IsBlank(v.value.str)) {
      PendingNotBlank();
    }
  }

  /** What `s` yields it yields again. */
  lemma SIdempotent(v: Option<JVal>)
    ensures S(Some(JStr(S(v)))) == S(v)
  {
    SNotBlank(v);
  }

  /** `isObject(v)`: truthy, `typeof` object and not an array. */
  predicate IsObject(v: Option<JVal>) {
    v.Some? && v.value.JObj?
  }

  // ---------------------------------------------------------------------------
  // validateSections
  // ---------------------------------------------------------------------------

  const NotObjectMessage := "doc.sections ausente ou inválido (esperado OBJETO)"
  const EmptyMessage := "doc.sections está vazio — gere o rascunho novamente antes de exportar"

  function MissingKeyMessage(k: string): string {
    "doc.sections inválido: chave ausente '" + k + "'"
  }

  function NotStringMessage(k: string): string {
    "doc.sections inválido: '" + k + "' deve ser string"
  }

  /** The two checks of one required key: present (`k in sections`), then a
      string. `None` is a key that passes. */
  function KeyError(es: seq<(string, JVal)>, k: string): (r: Option<string>)
    ensures r.None? <==> Lookup(es, k).Some? && Lookup(es, k).value.JStr?
    ensures Lookup(es, k).None? ==> r == Some(MissingKeyMessage(k))
    ensures Lookup(es, k).Some? && !Lookup(es, k).value.JStr? ==> r == Some(NotStringMessage(k))
  {
    match Lookup(es, k)
    case None => Some(MissingKeyMessage(k))
    case Some(v) => if v.JStr? then None else Some(NotStringMessage(k))
  }

  /** The loop over the required keys, which returns at the first failure. */
  function CheckKeys(es: seq<(string, JVal)>, keys: seq<string>): Option<string>
    decreases |keys|
  {
    if keys == [] then None
    else if KeyError(es, keys[0]).Some? then KeyError(es, keys[0])
    else CheckKeys(es, keys[1..])
  }

  /** The loop passes exactly when every key passes. */
  lemma {:induction false} CheckKeysPass(es: seq<(string, JVal)>, keys: seq<string>)
    ensures CheckKeys(es, keys).None? <==> forall i :: 0 <= i < |keys| ==> KeyError(es, keys[i]).None?
    decreases |keys|
  {
    if keys != [] {
      CheckKeysPass(es, keys[1..]);
      assert forall i :: 1 <= i < |keys| ==> keys[i] == keys[1..][i - 1];
    }
  }

  /** The first failing key decides the error. */
  lemma {:induction false} CheckKeysFirst(es: seq<(string, JVal)>, keys: seq<string>, i: nat)
    requires i < |keys| && KeyError(es, keys[i]).Some?
    requires forall j :: 0 <= j < i ==> KeyError(es, keys[j]).None?
    ensures CheckKeys(es, keys) == KeyError(es, keys[i])
    decreases i
  {
    if i > 0 {
      assert keys[1..][i - 1] == keys[i];
      forall j | 0 <= j < i - 1 ensures KeyError(es, keys[1..][j]).None? {
        assert keys[1..][j] == keys[j + 1];
      }
      CheckKeysFirst(es, keys[1..], i - 1);
    }
  }

  /** `String(t || "").trim().length > 0` */
  predicate HasText(c: Coercion, v: JVal) {
    !IsBlank(StrOr(c, Some(v)))
  }

  /** `Object.values(sections).some(...)`: any value, required or not. */
  predicate HasAny(c: Coercion, es: seq<(string, JVal)>) {
    exists i :: 0 <= i < |es| && HasText(c, es[i].1)
  }

  /** `validateSections(sections)`: `None` is `{ ok: true }`, `Some(e)` the
      error text. */
  function ValidateSections(c: Coercion, sections: Option<JVal>): (r: Option<string>)
    ensures !IsObject(sections) ==> r == Some(NotObjectMessage)
    ensures r.None? ==> IsObject(sections) && HasAny(c, sections.value.entries)
    ensures IsObject(sections) && (forall i :: 0 <= i < |SectionKeys| ==> KeyError(sections.value.entries, SectionKeys[i]).None?)
            ==> r == if HasAny(c, sections.value.entries) then None else Some(EmptyMessage)
  {
    if !IsObject(sections) then Some(NotObjectMessage)
    else
      var es := sections.value.entries;
      CheckKeysPass(es, SectionKeys);
      match CheckKeys(es, SectionKeys)
      case Some(e) => Some(e)
      case None => if HasAny(c, es) then None else Some(EmptyMessage)
  }

  /** Sections pass exactly when they form an object, each of the seven
      keys holds a string, and some value, of any key, has text. */
  lemma ValidSectionsIff(c: Coercion, sections: Option<JVal>)
    ensures ValidateSections(c, sections).None?
            <==> IsObject(sections)
                 && (forall i :: 0 <= i < |SectionKeys| ==> KeyError(sections.value.entries, SectionKeys[i]).None?)
                 && HasAny(c, sections.value.entries)
  {
    if IsObject(sections) {
      CheckKeysPass(sections.value.entries, SectionKeys);
    }
  }

  /** The first absent or non-string key, in the fixed order, names the
      error. */
  lemma FirstBadKeyReported(c: Coercion, es: seq<(string, JVal)>, i: nat)
    requires i < |SectionKeys| && KeyError(es, SectionKeys[i]).Some?
    requires forall j :: 0 <= j < i ==> KeyError(es, SectionKeys[j]).None?
    ensures ValidateSections(c, Some(JObj(es))) == KeyError(es, SectionKeys[i])
  {
    CheckKeysFirst(es, SectionKeys, i);
  }

  /** An array is no object, whatever it holds. */
  lemma ArrayRejected(c: Coercion, items: seq<JVal>)
    ensures ValidateSections(c, Some(JArr(items))) == Some(NotObjectMessage)
  {
  }

  /** With all seven keys holding strings, the sections pass or fail on
      text alone, and text under a key outside the seven counts as well. */
  lemma ExtraKeyCounts(c: Coercion, es: seq<(string, JVal)>, k: string, t: string)
    requires forall i :: 0 <= i < |SectionKeys| ==> KeyError(es, SectionKeys[i]).None?
    requires !IsBlank(t)
    ensures ValidateSections(c, Some(JObj(es + [(k, JStr(t))]))).None?
  {
    var all := es + [(k, JStr(t))];
    KeysSurviveAppend(es, [(k, JStr(t))], SectionKeys);
    LastHasText(c, es, k, t);
    ValidSectionsIff(c, Some(JObj(all)));
  }

  /** Appending entries leaves the keys that already pass passing. */
  lemma KeysSurviveAppend(es: seq<(string, JVal)>, extra: seq<(string, JVal)>, keys: seq<string>)
    requires forall i :: 0 <= i < |keys| ==> KeyError(es, keys[i]).None?
    ensures forall i :: 0 <= i < |keys| ==> KeyError(es + extra, keys[i]).None?
  {
    forall i | 0 <= i < |keys| ensures KeyError(es + extra, keys[i]).None? {
      LookupConcat(es, extra, keys[i]);
    }
  }

  lemma LastHasText(c: Coercion, es: seq<(string, JVal)>, k: string, t: string)
    requires !IsBlank(t)
    ensures HasAny(c, es + [(k, JStr(t))])
  {
    TextHasText(c, t);
    assert (es + [(k, JStr(t))])[|es|].1 == JStr(t);
  }

  lemma TextHasText(c: Coercion, t: string)
    requires !IsBlank(t)
    ensures HasText(c, JStr(t))
  {
    assert t != [] by {
      assert TrimStart([]) == [];
    }
    assert StrOr(c, Some(JStr(t))) == t;
  }

  // ---------------------------------------------------------------------------
  // Paragraphs
  // ---------------------------------------------------------------------------

  /** A paragraph of the document: the centred title, a level-two heading,
      a justified body line, the unformatted empty paragraph of an empty
      text, the spacer before the signature, and a right-aligned line. */
  datatype Para =
    | Title(text: string)
    | Heading(text: string)
    | Body(text: string)
    | Plain(text: string)
    | Spacer
    | Right(text: string, bold: bool)

  /** `.map(l => l.trim()).filter(Boolean)` */
  function NonBlank(pieces: seq<string>): (ls: seq<string>)
    ensures |ls| <= |pieces|
    ensures forall i :: 0 <= i < |ls| ==> ls[i] != [] && IsTrimmed(ls[i])
    decreases |pieces|
  {
    if pieces == [] then []
    else
      TrimIsTrimmed(pieces[0]);
      (if Trim(pieces[0]) == [] then [] else [Trim(pieces[0])]) + NonBlank(pieces[1..])
  }

  /** Lines already trimmed and non-empty pass the filter unchanged. */
  lemma {:induction false} NonBlankKeeps(ls: seq<string>)
    requires forall i :: 0 <= i < |ls| ==> ls[i] != [] && IsTrimmed(ls[i])
    ensures NonBlank(ls) == ls
    decreases |ls|
  {
    if ls != [] {
      TrimmedFixpoint(ls[0]);
      NonBlankKeeps(ls[1..]);
    }
  }

  /** The non-blank lines of a text, each trimmed. */
  function Lines(text: string): (ls: seq<string>)
    ensures forall i :: 0 <= i < |ls| ==> ls[i] != [] && IsTrimmed(ls[i])
  {
    NonBlank(Split(text, '\n'))
  }

  /** Joining trimmed, non-empty lines with line breaks and cutting the text
      again gives the same lines. */
  lemma LinesRoundTrip(ls: seq<string>)
    requires ls != []
    requires forall i :: 0 <= i < |ls| ==> ls[i] != [] && IsTrimmed(ls[i]) && '\n' !in ls[i]
    ensures Lines(Join(ls, "\n")) == ls
  {
    SplitJoin(ls, '\n');
    NonBlankKeeps(ls);
  }

  /** `textToParagraphs(text)` */
  function Paragraphs(text: string): (ps: seq<Para>)
    ensures |ps| >= 1
    ensures Lines(text) == [] <==> ps == [Plain("")]
    ensures Lines(text) != [] ==> |ps| == |Lines(text)| && forall i :: 0 <= i < |ps| ==> ps[i] == Body(Lines(text)[i])
  {
    var ls := Lines(text);
    if ls == [] then [Plain("")]
    else
      var ps := seq(|ls|, i requires 0 <= i < |ls| => Body(ls[i]));
      assert ps[0] != Plain("");
      ps
  }

  // ---------------------------------------------------------------------------
  // The document
  // ---------------------------------------------------------------------------

  const DocumentTitle := "PETIÇÃO INICIAL – AÇÃO DE COBRANÇA"

  /** The six numbered parts after the addressing, each read from the
      section key that follows `enderecamento`. */
  datatype Chapter = Qualification | Facts | Law | Requests | ClaimValue | FinalRequests
  {
    function Rank(): nat {
      match this
      case Qualification => 0
      case Facts => 1
      case Law => 2
      case Requests => 3
      case ClaimValue => 4
      case FinalRequests => 5
    }

    function Heading(): string {
      match this
      case Qualification => "I – QUALIFICAÇÃO DAS PARTES"
      case Facts => "II – DOS FATOS"
      case Law => "III – DO DIREITO"
      case Requests => "IV – DOS PEDIDOS"
      case ClaimValue => "V – DO VALOR DA CAUSA"
      case FinalRequests => "VI – REQUERIMENTOS FINAIS"
    }

    function Key(): string {
      SectionKeys[Rank() + 1]
    }
  }

  const Chapters: seq<Chapter> := [Qualification, Facts, Law, Requests, ClaimValue, FinalRequests]

  /** `section(title, content)` */
  function Section(title: string, content: string): seq<Para> {
    [Heading(title)] + Paragraphs(content)
  }

  /** Each chapter's heading with the text `s` reads from its key. */
  function Contents(sections: Option<JVal>, chs: seq<Chapter>): (cs: seq<(string, string)>)
    ensures |cs| == |chs|
    ensures forall i :: 0 <= i < |chs| ==> cs[i] == (chs[i].Heading(), S(GetOpt(sections, chs[i].Key())))
  {
    seq(|chs|, i requires 0 <= i < |chs| => (chs[i].Heading(), S(GetOpt(sections, chs[i].Key()))))
  }

  /** The sections one after another. */
  function Parts(cs: seq<(string, string)>): seq<Para>
    decreases |cs|
  {
    if cs == [] then [] else Section(cs[0].0, cs[0].1) + Parts(cs[1..])
  }

  /** The right-aligned closing: place and date, the signer's name in bold,
      the OAB number. */
  function Closing(doc: Option<JVal>): (ps: seq<Para>)
  {
    var signature := GetOpt(doc, "signature");
    [Spacer, Right(S(GetOpt(doc, "localData")), false), Right(S(GetOpt(signature, "nome")), true),
     Right(S(GetOpt(signature, "oab")), false)]
  }

  /** The children of the `Document` built from `body.doc`: the title, the
      opening, exactly the six chapter headings in their fixed order, and
      the four closing lines at the end. */
  function Document(doc: Option<JVal>): (d: seq<Para>)
    ensures |d| >= 5 && d[0] == Title(DocumentTitle)
    ensures Headings(d) == Outline()
    ensures d[|d| - 4..] == Closing(doc)
  {
    var sections := GetOpt(doc, "sections");
    var head := [Title(DocumentTitle)] + Paragraphs(S(GetOpt(sections, SectionKeys[0])));
    var cs := Contents(sections, Chapters);
    OpeningHeadings(S(GetOpt(sections, SectionKeys[0])));
    PartsOutline(cs);
    ContentsOutline(sections);
    ClosingNoHeadings(doc);
    HeadingsOfThree(head, Parts(cs), Closing(doc));
    head + Parts(cs) + Closing(doc)
  }

  /** The heading texts of a paragraph list, in order. */
  function Headings(ps: seq<Para>): seq<string>
    decreases |ps|
  {
    if ps == [] then []
    else (if ps[0].Heading? then [ps[0].text] else []) + Headings(ps[1..])
  }

  lemma {:induction false} HeadingsConcat(a: seq<Para>, b: seq<Para>)
    ensures Headings(a + b) == Headings(a) + Headings(b)
    decreases |a|
  {
    if a == [] {
      assert a + b == b;
    } else {
      assert (a + b)[0] == a[0];
      assert (a + b)[1..] == a[1..] + b;
      HeadingsConcat(a[1..], b);
    }
  }

  lemma {:induction false} NoHeadings(ps: seq<Para>)
    requires forall i :: 0 <= i < |ps| ==> !ps[i].Heading?
    ensures Headings(ps) == []
    decreases |ps|
  {
    if ps != [] {
      NoHeadings(ps[1..]);
    }
  }

  /** A text never turns into a heading. */
  lemma ParagraphsNoHeadings(text: string)
    ensures Headings(Paragraphs(text)) == []
  {
    NoHeadings(Paragraphs(text));
  }

  /** A section has one heading, its title. */
  lemma SectionHeadings(title: string, content: string)
    ensures Headings(Section(title, content)) == [title]
  {
    HeadingsConcat([Heading(title)], Paragraphs(content));
    ParagraphsNoHeadings(content);
  }

  /** The title and the addressing have no heading. */
  lemma OpeningHeadings(text: string)
    ensures Headings([Title(DocumentTitle)] + Paragraphs(text)) == []
  {
    HeadingsConcat([Title(DocumentTitle)], Paragraphs(text));
    ParagraphsNoHeadings(text);
  }

  /** The first components, in order. */
  function Firsts(cs: seq<(string, string)>): (hs: seq<string>)
    ensures |hs| == |cs| && forall i :: 0 <= i < |cs| ==> hs[i] == cs[i].0
    decreases |cs|
  {
    if cs == [] then [] else [cs[0].0] + Firsts(cs[1..])
  }

  lemma {:induction false} PartsOutline(cs: seq<(string, string)>)
    ensures Headings(Parts(cs)) == Firsts(cs)
    decreases |cs|
  {
    if cs != [] {
      HeadingsConcat(Section(cs[0].0, cs[0].1), Parts(cs[1..]));
      SectionHeadings(cs[0].0, cs[0].1);
      PartsOutline(cs[1..]);
    }
  }

  /** The chapter headings in their fixed order. */
  function Outline(): (hs: seq<string>)
    ensures |hs| == |Chapters| && forall i :: 0 <= i < |Chapters| ==> hs[i] == Chapters[i].Heading()
  {
    seq(|Chapters|, i requires 0 <= i < |Chapters| => Chapters[i].Heading())
  }

  /** The chapters' headings are the outline, whatever the sections hold. */
  lemma ContentsOutline(sections: Option<JVal>)
    ensures Firsts(Contents(sections, Chapters)) == Outline()
  {
  }

  lemma ClosingNoHeadings(doc: Option<JVal>)
    ensures Headings(Closing(doc)) == []
  {
    var ps := Closing(doc);
    assert !ps[0].Heading? && !ps[1].Heading? && !ps[2].Heading? && !ps[3].Heading?;
    NoHeadings(ps);
  }

  lemma HeadingsOfThree(a: seq<Para>, b: seq<Para>, c: seq<Para>)
    requires Headings(a) == [] && Headings(c) == []
    ensures Headings(a + b + c) == Headings(b)
  {
    HeadingsConcat(a, b);
    HeadingsConcat(a + b, c);
  }

  /** A text with some non-space character becomes its lines, each a
      justified paragraph, in order. */
  lemma TextParagraphs(t: string)
    requires !IsBlank(t)
    ensures Lines(t) != [] && |Paragraphs(t)| == |Lines(t)|
    ensures forall i :: 0 <= i < |Lines(t)| ==> Paragraphs(t)[i] == Body(Lines(t)[i])
  {
    LinesOfText(t);
  }

  /** A text with some non-space character has at least one line. */
  lemma LinesOfText(t: string)
    requires !IsBlank(t)
    ensures Lines(t) != []
  {
    var pieces := Split(t, '\n');
    if NonBlank(pieces) == [] {
      AllPiecesBlank(pieces);
      JoinBlank(pieces);
      BlankIffAllWs(t);
    }
  }

  lemma NonBlankCons(pieces: seq<string>)
    requires pieces != []
    ensures NonBlank(pieces) == (if IsBlank(pieces[0]) then [] else [Trim(pieces[0])]) + NonBlank(pieces[1..])
  {
  }

  lemma {:induction false} AllPiecesBlank(pieces: seq<string>)
    requires NonBlank(pieces) == []
    ensures forall i :: 0 <= i < |pieces| ==> AllWs(pieces[i])
    decreases |pieces|
  {
    if pieces != [] {
      NonBlankCons(pieces);
      BlankIffAllWs(pieces[0]);
      AllPiecesBlank(pieces[1..]);
      forall i | 1 <= i < |pieces|
        ensures AllWs(pieces[i])
      {
        assert pieces[i] == pieces[1..][i - 1];
      }
    }
  }

  /** Joining all-space pieces with line breaks gives an all-space text. */
  lemma {:induction false} JoinBlank(pieces: seq<string>)
    requires forall i :: 0 <= i < |pieces| ==> AllWs(pieces[i])
    ensures AllWs(Join(pieces, "\n"))
    decreases |pieces|
  {
    if |pieces| > 1 {
      JoinBlank(pieces[1..]);
      var rest := Join(pieces[1..], "\n");
      assert Join(pieces, "\n") == pieces[0] + "\n" + rest;
      assert IsWs('\n');
    }
  }

  // ---------------------------------------------------------------------------
  // Error classification
  // ---------------------------------------------------------------------------

  /** `504` stands at `i` as a word of its own. */
  predicate Word504At(m: string, i: int) {
    0 <= i && i + 3 <= |m| && m[i..i + 3] == "504"
    && (i == 0 || !IsWordChar(m[i - 1])) && (i + 3 == |m| || !IsWordChar(m[i + 3]))
  }

  /** `/\b504\b/.test(m)` */
  predicate Has504(m: string) {
    exists i :: 0 <= i <= |m| && Word504At(m, i)
  }

  /** `looksLikeTimeout(err)` on the error's text. */
  predicate LooksLikeTimeout(m: string) {
    Has504(m) || ContainsCi(m, "gateway timeout") || ContainsCi(m, "timeout") || ContainsCi(m, "Tempo limite")
  }

  /** `looksLikeBlobTokenMissing(err)` of the older variant. */
  predicate LooksLikeBlobTokenMissing(m: string) {
    ContainsCi(m, "No token found") || ContainsCi(m, "BLOB_READ_WRITE_TOKEN")
  }

  /** The `gateway timeout` test adds nothing: such a text also contains
      `timeout`. */
  lemma GatewayTimeoutRedundant(m: string)
    ensures LooksLikeTimeout(m) <==> Has504(m) || ContainsCi(m, "timeout") || ContainsCi(m, "Tempo limite")
  {
    if ContainsCi(m, "gateway timeout") {
      var p := Lower("gateway timeout");
      assert p == "gateway timeout";
      assert Lower("timeout") == "timeout";
      var i := ContainsWitness(Lower(m), p);
      assert Lower(m)[i + 8..i + 15] == p[8..15] == "timeout";
      ContainsAt(Lower(m), "timeout", i + 8);
    }
  }

  /** `String(err?.message || err || ...)` for a thrown `Error`: its
      message, or the `"Error"` its `toString` gives when the message is
      empty. */
  function ErrorText(e: Thrown): (t: string)
    ensures t != []
    ensures e.message != [] ==> t == e.message
  {
    if e.message != [] then e.message else "Error"
  }

  /** `Number(err?.statusCode || 500)` */
  function StatusOf(e: Thrown): (s: int)
    ensures s != 0
    ensures e.statusCode != 0 ==> s == e.statusCode
  {
    if e.statusCode != 0 then e.statusCode else 500
  }

  /** What the handler sends: `res.end()` after setting a status, or a JSON
      body. */
  datatype Response = Ended(status: int) | Json(status: int, body: seq<(string, JVal)>)

  const MethodMessage := "Method not allowed"
  const TimeoutMessage := "Tempo limite excedido (504). Tente novamente. Se persistir, reduza o texto de 'Fatos'."
  const TooManyMessage := "Muitas requisições. Tente novamente em alguns instantes."
  const FailedMessage := "Erro ao gerar DOCX"
  const BlobUnsetMessage := "Armazenamento (Blob) não configurado no ambiente. Faça Redeploy após definir BLOB_READ_WRITE_TOKEN."
  const BlobFailedMessage := "Falha no Blob (token ausente/inválido). Confirme BLOB_READ_WRITE_TOKEN em Production e faça Redeploy."

  /** `{ ok: false, status, error, details? }` */
  function Fail(status: int, error: string, details: Option<string>): (r: Response)
    ensures r.Json? && r.status == status && |r.body| >= 3
    ensures r.body[0] == ("ok", JBool(false)) && r.body[1] == ("status", JNum(status as real))
            && r.body[2] == ("error", JStr(error))
    ensures details.Some? <==> |r.body| == 4
    ensures details.Some? ==> r.body[3] == ("details", JStr(details.value))
  {
    Json(status, [("ok", JBool(false)), ("status", JNum(status as real)), ("error", JStr(error))]
                 + (if details.Some? then [("details", JStr(details.value))] else []))
  }

  /** The `catch` of the current endpoint. */
  function Caught(e: Thrown): (r: Response)
    ensures r.Json? && |r.body| == 4 && r.body[0] == ("ok", JBool(false)) && r.body[3] == ("details", JStr(ErrorText(e)))
    ensures LooksLikeTimeout(ErrorText(e)) ==> r.status == 504 && r.body[2] == ("error", JStr(TimeoutMessage))
    ensures !LooksLikeTimeout(ErrorText(e))
            ==> r.status == StatusOf(e) && r.body[2] == ("error", JStr(if StatusOf(e) == 429 then TooManyMessage else FailedMessage))
  {
    var msg := ErrorText(e);
    if LooksLikeTimeout(msg) then Fail(504, TimeoutMessage, Some(msg))
    else
      var status := StatusOf(e);
      Fail(status, if status == 429 then TooManyMessage else FailedMessage, Some(msg))
  }

  /** The `catch` of the older variant, which tells blob-token failures
      apart after timeouts. */
  function CaughtOld(e: Thrown): (r: Response)
    ensures r.Json? && |r.body| == 4 && r.body[0] == ("ok", JBool(false))
  {
    var msg := ErrorText(e);
    if LooksLikeTimeout(msg) then Fail(504, TimeoutMessage, Some(msg))
    else if LooksLikeBlobTokenMissing(msg) then Fail(500, BlobFailedMessage, Some(msg))
    else
      var status := StatusOf(e);
      Fail(status, if status == 429 then TooManyMessage else FailedMessage, Some(msg))
  }

  /** The two `catch` blocks differ only on a blob-token error that is not
      also a timeout. */
  lemma CatchesAgree(e: Thrown)
    ensures !LooksLikeTimeout(ErrorText(e)) && LooksLikeBlobTokenMissing(ErrorText(e))
            ==> CaughtOld(e) == Fail(500, BlobFailedMessage, Some(ErrorText(e)))
    ensures LooksLikeTimeout(ErrorText(e)) || !LooksLikeBlobTokenMissing(ErrorText(e))
            ==> CaughtOld(e) == Caught(e)
  {
  }

  lemma Has504Five(m: string)
    ensures Has504(m) ==> '5' in m
  {
    if Has504(m) {
      var i :| 0 <= i <= |m| && Word504At(m, i);
      assert m[i..i + 3] == "504";
      assert m[i] == m[i..i + 3][0];
    }
  }

  /** An ASCII letter is absent from the lower-cased text when neither of
      its cases is present. */
  lemma LowerLacks(s: string, ch: char)
    requires 'a' <= ch <= 'z'
    requires ch !in s && (ch as int - 32) as char !in s
    ensures ch !in Lower(s)
  {
    forall i | 0 <= i < |s| ensures Lower(s)[i] != ch {
      assert s[i] != ch && s[i] != (ch as int - 32) as char;
    }
  }

  /** A text is not taken for a timeout when it has no `5`, no `p` and
      lacks one of the letters of `timeout`, in either case. */
  lemma NotTimeout(m: string, ch: char)
    requires '5' !in m && 'p' !in m && 'P' !in m
    requires ch in "timeou" && ch !in m && (ch as int - 32) as char !in m
    ensures !LooksLikeTimeout(m)
  {
    GatewayTimeoutRedundant(m);
    Has504Five(m);
    LowerLacks(m, 'p');
    LowerLacks(m, ch);
    assert Lower("timeout") == "timeout";
    assert Lower("Tempo limite") == "tempo limite";
    ContainsChar(Lower(m), "tempo limite", 3);
    var k := if ch == 't' then 0 else if ch == 'i' then 1 else if ch == 'm' then 2
             else if ch == 'e' then 3 else if ch == 'o' then 4 else 5;
    assert "timeout"[k] == ch;
    ContainsChar(Lower(m), "timeout", k);
  }

  /** The rate limiter's throw keeps its 429 and gets the retry wording. */
  lemma RateLimitedIs429()
    ensures Caught(Thrown(RateLimit.ExceededMessage, 429))
            == Fail(429, TooManyMessage, Some(RateLimit.ExceededMessage))
  {
    ExceededLacks();
    NotTimeout(RateLimit.ExceededMessage, 'u');
  }

  lemma ExceededLacks()
    ensures '5' !in RateLimit.ExceededMessage && 'p' !in RateLimit.ExceededMessage
    ensures 'P' !in RateLimit.ExceededMessage && 'u' !in RateLimit.ExceededMessage
    ensures 'U' !in RateLimit.ExceededMessage
  {
    assert '5' !in RateLimit.ExceededMessage;
    assert 'p' !in RateLimit.ExceededMessage;
    assert 'P' !in RateLimit.ExceededMessage;
    assert 'u' !in RateLimit.ExceededMessage;
  }

  lemma MissingTokenLacks()
    ensures '5' !in Auth.MissingTokenMessage && 'p' !in Auth.MissingTokenMessage
    ensures 'P' !in Auth.MissingTokenMessage && 'i' !in Auth.MissingTokenMessage
    ensures 'I' !in Auth.MissingTokenMessage
  {
    assert '5' !in Auth.MissingTokenMessage;
    assert 'p' !in Auth.MissingTokenMessage;
    assert 'P' !in Auth.MissingTokenMessage;
    assert 'i' !in Auth.MissingTokenMessage;
  }

  lemma WrongTokenLacks()
    ensures '5' !in Auth.WrongTokenMessage && 'p' !in Auth.WrongTokenMessage
    ensures 'P' !in Auth.WrongTokenMessage && 'm' !in Auth.WrongTokenMessage
    ensures 'M' !in Auth.WrongTokenMessage
  {
    assert '5' !in Auth.WrongTokenMessage;
    assert 'p' !in Auth.WrongTokenMessage;
    assert 'P' !in Auth.WrongTokenMessage;
    assert 'm' !in Auth.WrongTokenMessage;
  }

  /** A request without a token keeps the guard's 401 in the `catch`. */
  lemma MissingTokenIs401()
    ensures Caught(Thrown(Auth.MissingTokenMessage, 401)) == Fail(401, FailedMessage, Some(Auth.MissingTokenMessage))
  {
    MissingTokenLacks();
    NotTimeout(Auth.MissingTokenMessage, 'i');
  }

  /** A request with a wrong token keeps the guard's 403 in the `catch`. */
  lemma WrongTokenIs403()
    ensures Caught(Thrown(Auth.WrongTokenMessage, 403)) == Fail(403, FailedMessage, Some(Auth.WrongTokenMessage))
  {
    WrongTokenLacks();
    NotTimeout(Auth.WrongTokenMessage, 'm');
  }

  // ---------------------------------------------------------------------------
  // The handlers
  // ---------------------------------------------------------------------------

  /** What the blob store hands back: the public URL and the size of the
      packed buffer. */
  datatype Stored = Stored(url: string, size: nat)

  /** What lies outside the model: the rate limiter's and the token guard's
      outcome (`None` when they let the request through), packing and
      uploading a document (or the error they throw), `Date.now()` at the
      upload, and the elapsed milliseconds. */
  datatype Env = Env(limiter: Option<Thrown>, guard: Option<Thrown>, store: seq<Para> -> Result<Stored, Thrown>,
                     nowMs: nat, elapsedMs: nat)

  /** The first throw of `rateLimit(...); authGuard(req);`. */
  function Gate(env: Env): (r: Option<Thrown>)
    ensures r.None? <==> env.limiter.None? && env.guard.None?
  {
    if env.limiter.Some? then env.limiter else env.guard
  }

  function Filename(nowMs: nat): string {
    "acao_cobranca_" + NatToString(nowMs) + ".docx"
  }

  /** An answer that reports success. */
  predicate Succeeded(r: Response) {
    r.Json? && |r.body| > 0 && r.body[0] == ("ok", JBool(true))
  }

  /** `{ ok: true, url, filename, size, meta: { ms } }` */
  function Exported(s: Stored, env: Env): Response {
    Json(200, [("ok", JBool(true)), ("url", JStr(s.url)), ("filename", JStr(Filename(env.nowMs))),
               ("size", JNum(s.size as real)), ("meta", JObj([("ms", JNum(env.elapsedMs as real))]))])
  }

  /** From `body.doc.sections` to the answer, shared by both variants:
      `Success` is an answer sent from the `try`, `Failure` a throw the
      `catch` classifies. */
  function Produce(c: Coercion, body: JVal, env: Env): (r: Result<Response, Thrown>)
    ensures r.Success? && Succeeded(r.value)
            ==> ValidateSections(c, GetOpt(Get(body, "doc"), "sections")).None?
                && env.store(Document(Get(body, "doc"))).Success?
  {
    var doc := Get(body, "doc");
    match ValidateSections(c, GetOpt(doc, "sections"))
    case Some(error) => Success(Fail(400, error, None))
    case None =>
      match env.store(Document(doc))
      case Failure(e) => Failure(e)
      case Success(s) => Success(Exported(s, env))
  }

  /** `cobrancaDocx.js`'s handler. The request body is taken as the host
      delivers it, `req.body || {}`. */
  function ExportHandler(c: Coercion, verb: string, body: Option<JVal>, env: Env): (r: Response)
    ensures Succeeded(r)
            ==> verb == "POST" && Gate(env).None? && Present(body)
                && ValidateSections(c, GetOpt(Get(body.value, "doc"), "sections")).None?
  {
    if verb == "OPTIONS" then Ended(200)
    else if verb != "POST" then Fail(405, MethodMessage, None)
    else Settle(Gate(env), Produce(c, if Present(body) then body.value else JObj([]), env))
  }

  /** The end of the `try`: a throw of the guards, else what the rest of the
      block sends or throws, with throws classified by `catch`. The rest of
      the block only runs when the guards pass. */
  function Settle(gate: Option<Thrown>, rest: Result<Response, Thrown>): (r: Response)
    ensures gate.Some? ==> r == Caught(gate.value)
    ensures gate.None? && rest.Failure? ==> r == Caught(rest.error)
    ensures gate.None? && rest.Success? ==> r == rest.value
  {
    match gate
    case Some(e) => Caught(e)
    case None =>
      match rest
      case Failure(e) => Caught(e)
      case Success(r) => r
  }

  /** `Settle` with the older variant's `catch`. */
  function SettleOld(gate: Option<Thrown>, rest: Result<Response, Thrown>): (r: Response)
    ensures gate.Some? ==> r == CaughtOld(gate.value)
    ensures gate.None? && rest.Failure? ==> r == CaughtOld(rest.error)
    ensures gate.None? && rest.Success? ==> r == rest.value
  {
    match gate
    case Some(e) => CaughtOld(e)
    case None =>
      match rest
      case Failure(e) => CaughtOld(e)
      case Success(r) => r
  }

  /** The two endings agree when no blob-token error is thrown. */
  lemma SettleAgree(gate: Option<Thrown>, rest: Result<Response, Thrown>)
    requires gate.Some? ==> !LooksLikeBlobTokenMissing(ErrorText(gate.value))
    requires gate.None? && rest.Failure? ==> !LooksLikeBlobTokenMissing(ErrorText(rest.error))
    ensures SettleOld(gate, rest) == Settle(gate, rest)
  {
    if gate.Some? {
      CatchesAgree(gate.value);
    } else if rest.Failure? {
      CatchesAgree(rest.error);
    }
  }

  /** `parseBody(req)` of the older variant: a missing or falsy body is
      `{}`, an object or array is used as it is, a string is parsed (`{}`
      when it does not parse), anything else is `{}`. */
  function ParseBody(raw: Option<JVal>, parse: string -> Option<JVal>): (b: JVal)
    ensures !Present(raw) ==> b == JObj([])
    ensures Present(raw) && IsObjectLike(raw.value) ==> b == raw.value
  {
    if !Present(raw) then JObj([])
    else match raw.value
      case JObj(_) => raw.value
      case JArr(_) => raw.value
      case JStr(t) => if parse(t).Some? then parse(t).value else JObj([])
      case _ => JObj([])
  }

  /** A string body parses like the text it holds; one that does not parse
      is an empty object. */
  lemma ParseBodyString(t: string, parse: string -> Option<JVal>)
    requires t != []
    ensures parse(t).None? ==> ParseBody(Some(JStr(t)), parse) == JObj([])
    ensures parse(t).Some? ==> ParseBody(Some(JStr(t)), parse) == parse(t).value
  {
  }

  /** `cobrancaDocxOLD.js`'s handler: the blob token is checked after the
      guards and before the body is read, and the `catch` knows blob
      errors. */
  function ExportHandlerOld(c: Coercion, verb: string, raw: Option<JVal>, blobToken: Option<string>,
                            parse: string -> Option<JVal>, env: Env): (r: Response)
    ensures Succeeded(r)
            ==> verb == "POST" && Gate(env).None? && Auth.Configured(blobToken)
                && ValidateSections(c, GetOpt(Get(ParseBody(raw, parse), "doc"), "sections")).None?
  {
    if verb == "OPTIONS" then Ended(200)
    else if verb != "POST" then Fail(405, MethodMessage, None)
    else SettleOld(Gate(env), ProduceOld(c, raw, blobToken, parse, env))
  }

  /** The older variant's `try` after the guards: the blob-token check, then
      the body parsed and handed on. */
  function ProduceOld(c: Coercion, raw: Option<JVal>, blobToken: Option<string>,
                      parse: string -> Option<JVal>, env: Env): (r: Result<Response, Thrown>)
    ensures !Auth.Configured(blobToken) ==> r == Success(Fail(500, BlobUnsetMessage, None))
    ensures Auth.Configured(blobToken) ==> r == Produce(c, ParseBody(raw, parse), env)
  {
    if !Auth.Configured(blobToken) then Success(Fail(500, BlobUnsetMessage, None))
    else Produce(c, ParseBody(raw, parse), env)
  }

  /** Without the blob token, a request that passes the guards is answered
      500 before its body is parsed or validated: two bodies, however
      different, get the same answer. */
  lemma BlobTokenFirst(c: Coercion, raw1: Option<JVal>, raw2: Option<JVal>, blobToken: Option<string>,
                       parse: string -> Option<JVal>, env: Env)
    requires Gate(env).None? && !Auth.Configured(blobToken)
    ensures ExportHandlerOld(c, "POST", raw1, blobToken, parse, env) == Fail(500, BlobUnsetMessage, None)
    ensures ExportHandlerOld(c, "POST", raw1, blobToken, parse, env)
            == ExportHandlerOld(c, "POST", raw2, blobToken, parse, env)
  {
  }

  /** Valid sections are exported when the store succeeds: 200 with the
      URL, the file name stamped with the upload time, and the size. */
  lemma ValidSectionsExported(c: Coercion, b: JVal, env: Env)
    requires Truthy(b) && Gate(env).None?
    requires ValidateSections(c, GetOpt(Get(b, "doc"), "sections")).None?
    requires env.store(Document(Get(b, "doc"))).Success?
    ensures ExportHandler(c, "POST", Some(b), env) == Exported(env.store(Document(Get(b, "doc"))).value, env)
  {
  }

  /** Invalid sections are answered 400 with the validation's text, and
      nothing reaches the store. */
  lemma InvalidSections400(c: Coercion, b: JVal, env: Env)
    requires Truthy(b) && Gate(env).None?
    requires ValidateSections(c, GetOpt(Get(b, "doc"), "sections")).Some?
    ensures ExportHandler(c, "POST", Some(b), env)
            == Fail(400, ValidateSections(c, GetOpt(Get(b, "doc"), "sections")).value, None)
  {
  }

  /** The current endpoint does not parse a string body: it has no
      `doc.sections` and is answered 400, where the older variant parsed
      it. */
  lemma StringBodyRejected(c: Coercion, t: string, env: Env)
    requires t != [] && Gate(env).None?
    ensures ExportHandler(c, "POST", Some(JStr(t)), env) == Fail(400, NotObjectMessage, None)
  {
  }

  /** A request over the limit is answered 429 with the retry wording. */
  lemma OverLimitIs429(c: Coercion, body: Option<JVal>, env: Env)
    requires env.limiter == Some(Thrown(RateLimit.ExceededMessage, 429))
    ensures ExportHandler(c, "POST", body, env) == Fail(429, TooManyMessage, Some(RateLimit.ExceededMessage))
  {
    RateLimitedIs429();
  }

  /** With the blob token set and an object body, the two variants give the
      same answer unless a blob-token error is thrown. */
  lemma VariantsAgree(c: Coercion, verb: string, b: JVal, blobToken: Option<string>,
                      parse: string -> Option<JVal>, env: Env)
    requires IsObjectLike(b) && Auth.Configured(blobToken)
    requires Gate(env).Some? ==> !LooksLikeBlobTokenMissing(ErrorText(Gate(env).value))
    requires Gate(env).None? && Produce(c, b, env).Failure?
             ==> !LooksLikeBlobTokenMissing(ErrorText(Produce(c, b, env).error))
    ensures ExportHandlerOld(c, verb, Some(b), blobToken, parse, env) == ExportHandler(c, verb, Some(b), env)
  {
    if verb == "POST" {
      assert Present(Some(b));
      var rest := Produce(c, b, env);
      assert ProduceOld(c, Some(b), blobToken, parse, env) == rest;
      assert ExportHandler(c, verb, Some(b), env) == Settle(Gate(env), rest);
      assert ExportHandlerOld(c, verb, Some(b), blobToken, parse, env) == SettleOld(Gate(env), rest);
      SettleAgree(Gate(env), rest);
    }
  }
}
