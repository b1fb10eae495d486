/** The last stage of a draft: the parsed answer becomes the seven-section
    record, the evidence paragraph built from the form's document checklist
    is appended to the requests section, a plain HTML rendering stands in
    when the answer brought none, and the metadata gains `hasSections`. */
module Assemble {
  import opened Wrappers
  import opened Text
  import opened Json
  import opened Draft
  import opened Html

  // ---------------------------------------------------------------------------
  // Sections
  // ---------------------------------------------------------------------------

  /** `normalizeSectionsObject(x)`: an object goes through the seven-key
      normalisation; anything else, `undefined` included, gives seven empty
      sections. */
  function NormalizeSectionsObject(o: Option<JVal>): (s: Sections)
    ensures AllTrimmed(s)
    ensures !(o.Some? && o.value.JObj?) ==> s == EmptySections()
  {
    if o.Some? && Truthy(o.value) && IsObjectLike(o.value) then SectionsFromJson(o.value) else EmptySections()
  }

  /** Normalising the JSON form of trimmed sections gives them back. */
  lemma NormalizeSectionsRoundTrip(s: Sections)
    requires AllTrimmed(s)
    ensures NormalizeSectionsObject(Some(SectionsToJson(s))) == s
  {
    NormalizeObject(SectionsToJson(s));
    SectionsRoundTripTrimmed(s);
  }

  lemma NormalizeObject(v: JVal)
    requires v.JObj?
    ensures NormalizeSectionsObject(Some(v)) == SectionsFromJson(v)
  {
  }

  /** Normalising twice is normalising once. */
  lemma NormalizeSectionsIdempotent(o: Option<JVal>)
    ensures NormalizeSectionsObject(Some(SectionsToJson(NormalizeSectionsObject(o)))) == NormalizeSectionsObject(o)
  {
    NormalizeSectionsRoundTrip(NormalizeSectionsObject(o));
  }

  // ---------------------------------------------------------------------------
  // HTML fallback
  // ---------------------------------------------------------------------------

  const HtmlOpen: string := "<div style=\"font-family: Arial, sans-serif; font-size: 14px; line-height: 1.5;\">"
  const HtmlClose: string := "</div>"

  /** The heading of each section, in the order of `SectionKeys`. */
  const SectionLabels: seq<string> :=
    ["Endereçamento", "Qualificação", "Fatos", "Fundamentos Jurídicos", "Pedidos", "Valor da Causa", "Requerimentos Finais"]

  const BlockHead: string := "\n      <h3 style=\"margin: 18px 0 8px 0;\">"

  /** One section's heading and escaped body. */
  function SectionBlock(heading: string, txt: string): (b: string)
    ensures b != []
  {
    var b := BlockHead + EscapeText(heading) + "</h3>\n      <div style=\"margin: 0 0 14px 0;\">" + Nl2br(txt) + "</div>\n    ";
    assert b[0] == BlockHead[0];
    b
  }

  /** What one section adds to the page: nothing when blank, its block
      otherwise. */
  function Piece(heading: string, text: string): (p: string)
    ensures p == [] <==> IsBlank(text)
  {
    if IsBlank(text) then [] else SectionBlock(heading, Trim(text))
  }

  function Pieces(texts: seq<string>, labels: seq<string>): (ps: seq<string>)
    requires |texts| == |labels|
    ensures |ps| == |texts|
    ensures forall i :: 0 <= i < |texts| ==> ps[i] == Piece(labels[i], texts[i])
  {
    seq(|texts|, i requires 0 <= i < |texts| => Piece(labels[i], texts[i]))
  }

  /** `buildHtmlFromSections(sections)` */
  function BuildHtmlFromSections(s: Sections): (h: string)
    ensures StartsWith(h, HtmlOpen) && EndsWith(h, HtmlClose)
    ensures h == HtmlOpen + HtmlClose <==> !HasAnyText(s)
  {
    var ps := Pieces(Values(s), SectionLabels);
    ConcatEmpty(ps);
    Wrapped(HtmlOpen, Concat(ps), HtmlClose);
    HtmlOpen + Concat(ps) + HtmlClose
  }

  /** The fallback shows each non-blank section under its heading, and a
      blank section has no influence on it. */
  lemma SectionShownInHtml(s: Sections, i: nat)
    requires i < |SectionKeys|
    ensures !IsBlank(Values(s)[i]) ==>
      Contains(BuildHtmlFromSections(s), SectionBlock(SectionLabels[i], Trim(Values(s)[i])))
    ensures IsBlank(Values(s)[i]) ==>
      BuildHtmlFromSections(s) == HtmlOpen + Concat(Pieces(Values(s)[i := []], SectionLabels)) + HtmlClose
  {
    var ps := Pieces(Values(s), SectionLabels);
    if !IsBlank(Values(s)[i]) {
      ConcatContains(ps, i);
      ContainsInConcat(HtmlOpen, Concat(ps), HtmlClose, ps[i]);
    } else {
      assert IsBlank([]);
      assert Pieces(Values(s)[i := []], SectionLabels) == ps;
    }
  }

  // ---------------------------------------------------------------------------
  // The document checklist
  // ---------------------------------------------------------------------------

  /** `String(item || "").trim()` */
  function DocText(c: Coercion, item: JVal): (t: string)
    ensures IsTrimmed(t)
  {
    TrimIsTrimmed(StrOr(c, Some(item)));
    Trim(StrOr(c, Some(item)))
  }

  function DocTexts(c: Coercion, items: seq<JVal>): (ts: seq<string>)
    ensures |ts| == |items|
    ensures forall k :: 0 <= k < |items| ==> ts[k] == DocText(c, items[k])
  {
    seq(|items|, k requires 0 <= k < |items| => DocText(c, items[k]))
  }

  /** The keys of a list under `key`. */
  function KeysBy(r: seq<string>, key: string -> string): (ks: seq<string>)
    ensures |ks| == |r|
    ensures forall i :: 0 <= i < |r| ==> ks[i] == key(r[i])
  {
    seq(|r|, i requires 0 <= i < |r| => key(r[i]))
  }

  /** The `seen`-set loop of `normalizeDocsList`: empty texts are skipped,
      and of the texts sharing a key only the first is kept. */
  function DedupBy(xs: seq<string>, key: string -> string, seen: set<string>): (r: seq<string>)
    ensures forall i :: 0 <= i < |r| ==> r[i] in xs && r[i] != [] && key(r[i]) !in seen
    ensures Distinct(KeysBy(r, key))
    ensures forall k :: 0 <= k < |xs| && xs[k] != [] ==> key(xs[k]) in seen || key(xs[k]) in KeysBy(r, key)
    decreases |xs|
  {
    if |xs| == 0 then []
    else
      var rest := xs[1..];
      assert forall k :: 1 <= k < |xs| ==> xs[k] == rest[k - 1];
      if xs[0] == [] || key(xs[0]) in seen then DedupBy(rest, key, seen)
      else
        var tail := DedupBy(rest, key, seen + {key(xs[0])});
        assert key(xs[0]) !in KeysBy(tail, key);
        assert KeysBy([xs[0]] + tail, key) == [key(xs[0])] + KeysBy(tail, key);
        [xs[0]] + tail
  }

  /** A list without empty texts whose keys are distinct and unseen passes
      unchanged. */
  lemma {:induction false} DedupByDistinct(xs: seq<string>, key: string -> string, seen: set<string>)
    requires forall i :: 0 <= i < |xs| ==> xs[i] != [] && key(xs[i]) !in seen
    requires Distinct(KeysBy(xs, key))
    ensures DedupBy(xs, key, seen) == xs
    decreases |xs|
  {
    if |xs| > 0 {
      var rest := xs[1..];
      forall i | 0 <= i < |rest|
        ensures key(rest[i]) !in seen + {key(xs[0])}
      {
        assert rest[i] == xs[i + 1];
        assert KeysBy(xs, key)[0] != KeysBy(xs, key)[i + 1];
      }
      assert KeysBy(rest, key) == KeysBy(xs, key)[1..];
      DedupByDistinct(rest, key, seen + {key(xs[0])});
      assert xs == [xs[0]] + rest;
    }
  }

  /** The texts that are not empty, in order. */
  function NonBlank(xs: seq<string>): (r: seq<string>)
    ensures forall i :: 0 <= i < |r| ==> r[i] != [] && r[i] in xs
    decreases |xs|
  {
    if |xs| == 0 then []
    else (if xs[0] == [] then [] else [xs[0]]) + NonBlank(xs[1..])
  }

  /** Whether `ys[i]` is the first of its key: the key is not already seen
      and no earlier element has it. */
  predicate FirstOfKey(ys: seq<string>, key: string -> string, seen: set<string>, i: nat)
    requires i < |ys|
  {
    key(ys[i]) !in seen && forall j :: 0 <= j < i ==> key(ys[j]) != key(ys[i])
  }

  /** The elements of `ys` from index `i` on that are the first of their
      key, in order. */
  function FirstsFrom(ys: seq<string>, key: string -> string, seen: set<string>, i: nat): seq<string>
    decreases |ys| - i
  {
    if i >= |ys| then []
    else (if FirstOfKey(ys, key, seen, i) then [ys[i]] else []) + FirstsFrom(ys, key, seen, i + 1)
  }

  /** The reference for de-duplication: the subsequence of `ys` at the
      indices whose key occurs neither in `seen` nor earlier in `ys`. */
  function Firsts(ys: seq<string>, key: string -> string, seen: set<string>): seq<string> {
    FirstsFrom(ys, key, seen, 0)
  }

  lemma {:induction false} FirstsFromShift(x: string, ys: seq<string>, key: string -> string, seen: set<string>, i: nat)
    requires i <= |ys|
    ensures FirstsFrom([x] + ys, key, seen, i + 1) == FirstsFrom(ys, key, seen + {key(x)}, i)
    decreases |ys| - i
  {
    if i < |ys| {
      var xs := [x] + ys;
      assert xs[i + 1] == ys[i];
      assert FirstOfKey(xs, key, seen, i + 1) == FirstOfKey(ys, key, seen + {key(x)}, i) by {
        assert forall j :: 0 <= j < i ==> xs[j + 1] == ys[j];
        assert xs[0] == x;
        if FirstOfKey(ys, key, seen + {key(x)}, i) {
          forall j | 0 <= j < i + 1 ensures key(xs[j]) != key(xs[i + 1]) {
            if j > 0 { assert xs[j] == ys[j - 1]; }
          }
        }
      }
      FirstsFromShift(x, ys, key, seen, i + 1);
    }
  }

  /** The first element is kept unless its key was seen; the rest is then
      read with its key seen. */
  lemma FirstsCons(x: string, ys: seq<string>, key: string -> string, seen: set<string>)
    ensures Firsts([x] + ys, key, seen) == (if key(x) in seen then [] else [x]) + Firsts(ys, key, seen + {key(x)})
  {
    FirstsFromShift(x, ys, key, seen, 0);
    assert ([x] + ys)[0] == x;
  }

  /** The `seen`-set loop computes the reference: the non-empty texts whose
      key was not seen before, first occurrence kept, in input order. */
  lemma {:induction false} DedupByIsFirsts(xs: seq<string>, key: string -> string, seen: set<string>)
    ensures DedupBy(xs, key, seen) == Firsts(NonBlank(xs), key, seen)
    decreases |xs|
  {
    if |xs| > 0 {
      var rest := xs[1..];
      if xs[0] == [] {
        assert NonBlank(xs) == NonBlank(rest);
        DedupByIsFirsts(rest, key, seen);
      } else {
        assert NonBlank(xs) == [xs[0]] + NonBlank(rest);
        FirstsCons(xs[0], NonBlank(rest), key, seen);
        if key(xs[0]) in seen {
          assert seen + {key(xs[0])} == seen;
          DedupByIsFirsts(rest, key, seen);
        } else {
          DedupByIsFirsts(rest, key, seen + {key(xs[0])});
        }
      }
    }
  }

  /** `normalizeDocsList(docsRaw)`: the trimmed texts of an array's items,
      blanks dropped, the first of each case-insensitive spelling kept. */
  function NormalizeDocsList(c: Coercion, docsRaw: Option<JVal>): (r: seq<string>)
    ensures forall i :: 0 <= i < |r| ==> IsTrimmed(r[i]) && r[i] != []
    ensures Distinct(KeysBy(r, Lower))
    ensures !(docsRaw.Some? && docsRaw.value.JArr?) ==> r == []
    ensures docsRaw.Some? && docsRaw.value.JArr? ==>
      var ts := DocTexts(c, docsRaw.value.items);
      && (forall i :: 0 <= i < |r| ==> r[i] in ts)
      && (forall k :: 0 <= k < |ts| && ts[k] != [] ==> Lower(ts[k]) in KeysBy(r, Lower))
      && r == Firsts(NonBlank(ts), Lower, {})
  {
    if docsRaw.Some? && docsRaw.value.JArr? then
      DedupByIsFirsts(DocTexts(c, docsRaw.value.items), Lower, {});
      DedupBy(DocTexts(c, docsRaw.value.items), Lower, {})
    else []
  }

  /** Strings as the JSON array items they came from. */
  function StrItems(docs: seq<string>): (items: seq<JVal>)
    ensures |items| == |docs|
    ensures forall i :: 0 <= i < |docs| ==> items[i] == JStr(docs[i])
  {
    seq(|docs|, i requires 0 <= i < |docs| => JStr(docs[i]))
  }

  /** Normalising a normalised list changes nothing. */
  lemma NormalizeDocsIdempotent(c: Coercion, docsRaw: Option<JVal>)
    ensures NormalizeDocsList(c, Some(JArr(StrItems(NormalizeDocsList(c, docsRaw))))) == NormalizeDocsList(c, docsRaw)
  {
    var r := NormalizeDocsList(c, docsRaw);
    DocTextsOfTrimmed(c, r);
    DedupByDistinct(r, Lower, {});
  }

  /** Trimmed strings read back as themselves. */
  lemma DocTextsOfTrimmed(c: Coercion, r: seq<string>)
    requires forall i :: 0 <= i < |r| ==> IsTrimmed(r[i])
    ensures DocTexts(c, StrItems(r)) == r
  {
    var ts := DocTexts(c, StrItems(r));
    forall i | 0 <= i < |r| ensures ts[i] == r[i] {
      TrimmedFixpoint(r[i]);
    }
  }

  // ---------------------------------------------------------------------------
  // Document labels
  // ---------------------------------------------------------------------------

  /** `DOC_LABELS`: the checklist codes and the names a petition gives them. */
  const DocLabels: map<string, string> := map[
    "contrato" := "Contrato Assinado",
    "orcamento" := "Orçamento aprovado",
    "pedido_compra" := "Pedido de Compra",
    "nota_fiscal" := "Nota Fiscal",
    "boleto" := "Boleto bancário",
    "planilha" := "Planilha de cálculo",
    "canhoto" := "Canhoto da Nota Fiscal",
    "aceite" := "Termo de Aceite/Entrega",
    "tecno" := "Contexto tecnológico",
    "email" := "E-mails de cobrança",
    "conversas" := "Conversas de WhatsApp/Telegram",
    "envio" := "Envio de carta/Telegrama",
    "outros" := "Outros"]

  const OutrosPrefix: string := "outros:"
  const OutrosLabel: string := "Outros"

  /** An `outros:<detail>` entry, recognised case-insensitively. */
  predicate IsOutrosDetail(s: string) {
    StartsWith(Lower(s), OutrosPrefix)
  }

  /** The lower-case names `DOC_LABELS` inherits from `Object.prototype`,
      with the text their values print as when the labels are joined: the
      `Object` constructor and the prototype object itself. */
  const InheritedLabels: map<string, string> := map[
    "constructor" := "function Object() { [native code] }",
    "__proto__" := "[object Object]"]

  /** `DOC_LABELS[s.toLowerCase()] || s`: a code's label, an inherited
      member's printed value, or the text itself. */
  function LabelOf(s: string): string {
    if Lower(s) in DocLabels then DocLabels[Lower(s)]
    else if Lower(s) in InheritedLabels then InheritedLabels[Lower(s)]
    else s
  }

  /** Spellings of a code that differ only in case get the same label,
      and text that is neither a code nor an inherited name is its own
      label. */
  lemma LabelOfCases(s: string, t: string)
    ensures Lower(s) == Lower(t) && Lower(s) in DocLabels ==> LabelOf(s) == LabelOf(t) == DocLabels[Lower(s)]
    ensures Lower(s) !in DocLabels && Lower(s) !in InheritedLabels ==> LabelOf(s) == s
  {
  }

  /** A checklist entry `constructor` reads the inherited constructor. */
  lemma ConstructorLabel()
    ensures LabelOf("constructor") == "function Object() { [native code] }"
  {
    var s := "constructor";
    assert Lower(s) == s by {
      forall i | 0 <= i < |s| ensures Lower(s)[i] == s[i] {
      }
    }
    assert s !in DocLabels;
  }

  /** What one checklist entry contributes to the list of labels. */
  datatype DocEntry = Skip | Detail(detail: string) | Named(name: string)

  /** One entry read the way the `docsToHumanList` loop reads it. */
  function Classify(raw: string): (e: DocEntry)
    ensures e.Detail? ==> e.detail != [] && IsTrimmed(e.detail)
  {
    var s := Trim(raw);
    if s == [] then Skip
    else if IsOutrosDetail(s) then
      TrimIsTrimmed(s[|OutrosPrefix|..]);
      var d := Trim(s[|OutrosPrefix|..]);
      if d != [] then Detail(d) else Skip
    else Named(LabelOf(s))
  }

  function Classes(docs: seq<string>): (es: seq<DocEntry>)
    ensures |es| == |docs|
    ensures forall i :: 0 <= i < |docs| ==> es[i] == Classify(docs[i])
  {
    seq(|docs|, i requires 0 <= i < |docs| => Classify(docs[i]))
  }

  /** The labels of the naming entries, repeats included: the reference the
      loop's de-duplicated list is measured against. */
  function NamesOf(es: seq<DocEntry>): seq<string>
    decreases |es|
  {
    if |es| == 0 then []
    else (if es[0].Named? then [es[0].name] else []) + NamesOf(es[1..])
  }

  /** The last detail among the entries, if any: the last one wins. */
  function LastDetail(es: seq<DocEntry>): Option<string>
    decreases |es|
  {
    if |es| == 0 then None
    else if es[|es| - 1].Detail? then Some(es[|es| - 1].detail)
    else LastDetail(es[..|es| - 1])
  }

  /** The state of the `docsToHumanList` loop. */
  datatype Human = Human(labels: seq<string>, detail: string)

  function HumanStep(h: Human, e: DocEntry): Human {
    match e
    case Skip => h
    case Detail(d) => h.(detail := d)
    case Named(l) => if l in h.labels then h else h.(labels := h.labels + [l])
  }

  /** The loop of `docsToHumanList` over the entries, from the state `h`. */
  function HumanLoop(h: Human, es: seq<DocEntry>): Human
    decreases |es|
  {
    if |es| == 0 then h else HumanLoop(HumanStep(h, es[0]), es[1..])
  }

  /** The loop keeps its labels distinct and ends with exactly the labels it
      started with plus those the entries name. */
  lemma {:induction false} HumanLoopLabels(h: Human, es: seq<DocEntry>)
    ensures Distinct(h.labels) ==> Distinct(HumanLoop(h, es).labels)
    ensures forall x :: x in HumanLoop(h, es).labels <==> x in h.labels || x in NamesOf(es)
    ensures h.labels <= HumanLoop(h, es).labels
    decreases |es|
  {
    if |es| > 0 {
      var h1 := HumanStep(h, es[0]);
      HumanLoopLabels(h1, es[1..]);
      assert NamesOf(es) == (if es[0].Named? then [es[0].name] else []) + NamesOf(es[1..]);
      if es[0].Named? && es[0].name !in h.labels {
        assert h1.labels == h.labels + [es[0].name];
        if Distinct(h.labels) {
          assert Distinct(h1.labels);
        }
      }
    }
  }

  /** Labels compare as themselves. */
  function SameText(s: string): string {
    s
  }

  /** The elements of a list as a set. */
  function Elements(xs: seq<string>): (r: set<string>)
    ensures forall x :: x in r <==> x in xs
  {
    set x | x in xs
  }

  /** The loop appends the named labels in first-appearance order: each
      label the entries name, unless it was already listed or named
      earlier. */
  lemma {:induction false} HumanLoopOrder(h: Human, es: seq<DocEntry>)
    ensures HumanLoop(h, es).labels == h.labels + Firsts(NamesOf(es), SameText, Elements(h.labels))
    decreases |es|
  {
    if |es| == 0 {
      assert Firsts([], SameText, Elements(h.labels)) == [];
    } else {
      var h1 := HumanStep(h, es[0]);
      HumanLoopOrder(h1, es[1..]);
      if es[0].Named? {
        var l := es[0].name;
        assert NamesOf(es) == [l] + NamesOf(es[1..]);
        FirstsCons(l, NamesOf(es[1..]), SameText, Elements(h.labels));
        assert Elements(h1.labels) == Elements(h.labels) + {SameText(l)};
      } else {
        assert NamesOf(es) == NamesOf(es[1..]);
      }
    }
  }

  /** Running the loop over `a + [x]` is one more step after `a`. */
  lemma {:induction false} HumanLoopSnoc(h: Human, a: seq<DocEntry>, x: DocEntry)
    ensures HumanLoop(h, a + [x]) == HumanStep(HumanLoop(h, a), x)
    decreases |a|
  {
    if |a| > 0 {
      assert (a + [x])[0] == a[0];
      assert (a + [x])[1..] == a[1..] + [x];
      HumanLoopSnoc(HumanStep(h, a[0]), a[1..], x);
    } else {
      assert [] + [x] == [x];
      assert [x][1..] == [];
    }
  }

  /** The detail the loop ends with is the last one given, or the one it
      started with when none is. */
  lemma {:induction false} HumanLoopDetail(h: Human, es: seq<DocEntry>)
    ensures HumanLoop(h, es).detail == LastDetail(es).GetOr(h.detail)
    decreases |es|
  {
    if |es| > 0 {
      var a := es[..|es| - 1];
      var x := es[|es| - 1];
      assert a + [x] == es;
      HumanLoopSnoc(h, a, x);
      HumanLoopDetail(h, a);
    }
  }

  function OutrosWith(detail: string): string {
    OutrosLabel + " (" + detail + ")"
  }

  /** The end of `docsToHumanList`: the first `Outros` becomes
      `Outros (<detail>)` when a detail was given. */
  function Finish(h: Human): (r: seq<string>)
    ensures |r| == |h.labels|
    ensures OutrosLabel !in h.labels || h.detail == [] ==> r == h.labels
    ensures forall i :: 0 <= i < |r| ==> r[i] == h.labels[i] || (h.labels[i] == OutrosLabel && r[i] == OutrosWith(h.detail))
    ensures Distinct(h.labels) && OutrosLabel in h.labels && h.detail != [] ==>
      OutrosLabel !in r && OutrosWith(h.detail) in r
  {
    if OutrosLabel in h.labels && h.detail != [] then
      var i := FirstIndex(h.labels, OutrosLabel);
      var r := h.labels[i := OutrosWith(h.detail)];
      assert |OutrosWith(h.detail)| > |OutrosLabel|;
      assert r[i] == OutrosWith(h.detail);
      r
    else h.labels
  }

  /** `docsToHumanList(docs)` */
  function DocsToHumanList(docs: seq<string>): (r: seq<string>)
    ensures docs == [] ==> r == []
  {
    Finish(HumanLoop(Human([], []), Classes(docs)))
  }

  /** The list names every document once, in first-appearance order, with the
      `outros:` detail, the last one given, attached to `Outros`. */
  lemma DocsToHumanListMeaning(docs: seq<string>)
    ensures var es := Classes(docs);
      var h := HumanLoop(Human([], []), es);
      && Distinct(h.labels)
      && (forall x :: x in h.labels <==> x in NamesOf(es))
      && h.labels == Firsts(NamesOf(es), SameText, {})
      && h.detail == LastDetail(es).GetOr([])
      && DocsToHumanList(docs) == Finish(h)
  {
    HumanLoopLabels(Human([], []), Classes(docs));
    HumanLoopDetail(Human([], []), Classes(docs));
    HumanLoopOrder(Human([], []), Classes(docs));
    assert Elements([]) == {};
  }

  // ---------------------------------------------------------------------------
  // The evidence paragraph
  // ---------------------------------------------------------------------------

  const ProvasLead: string :=
    "Protesta provar o alegado por todos os meios em direito admitidos, especialmente pela prova documental, consistente em: "

  /** `payload && payload.data && payload.data.provas && payload.data.provas.documentos` */
  function DocsOf(payload: Option<JVal>): Option<JVal> {
    GetByPath(payload, ["data", "provas", "documentos"])
  }

  /** The labels the paragraph lists. */
  function ProvasLabels(c: Coercion, payload: Option<JVal>): seq<string> {
    DocsToHumanList(NormalizeDocsList(c, DocsOf(payload)))
  }

  /** `buildProvasParagraphFromPayload(payload)` */
  function ProvasParagraph(c: Coercion, payload: Option<JVal>): (p: string)
    ensures p == [] <==> ProvasLabels(c, payload) == []
    ensures p != [] ==> StartsWith(p, ProvasLead) && EndsWith(p, ".")
  {
    var human := ProvasLabels(c, payload);
    if |human| == 0 then [] else ListParagraph(human)
  }

  /** The paragraph text for a list of labels. */
  function ListParagraph(human: seq<string>): (p: string)
    ensures p != [] && StartsWith(p, ProvasLead) && EndsWith(p, ".")
  {
    var p := ProvasLead + Join(human, "; ") + ".";
    assert p[..|ProvasLead|] == ProvasLead;
    assert p[|p| - 1..] == ".";
    p
  }

  /** Every label of the checklist is named in the paragraph. */
  lemma ProvasNamesEveryLabel(c: Coercion, payload: Option<JVal>, i: nat)
    requires i < |ProvasLabels(c, payload)|
    ensures Contains(ProvasParagraph(c, payload), ProvasLabels(c, payload)[i])
  {
    var human := ProvasLabels(c, payload);
    JoinContains(human, "; ", i);
    ContainsInConcat(ProvasLead, Join(human, "; "), ".", human[i]);
  }

  /** Without a payload there is no paragraph. */
  lemma ProvasWithoutPayload(c: Coercion)
    ensures ProvasParagraph(c, None) == []
  {
    GetByPathStaysUndefined(["data", "provas", "documentos"]);
  }

  /** `appendParagraph(base, paragraph)`: both trimmed; a blank paragraph or
      one the text already contains adds nothing; otherwise it follows after
      a blank line. */
  function AppendParagraph(base: string, paragraph: string): (r: string)
    ensures IsTrimmed(r)
    ensures IsBlank(paragraph) ==> r == Trim(base)
    ensures !IsBlank(paragraph) ==> Contains(r, Trim(paragraph)) && r != []
    ensures StartsWith(r, Trim(base))
  {
    var a := Trim(base);
    var p := Trim(paragraph);
    TrimIsTrimmed(base);
    TrimIsTrimmed(paragraph);
    if p == [] then a
    else if a != [] && Contains(a, p) then a
    else if a == [] then (ContainsSelf(p); p)
    else
      GlueParagraph(a, p);
      a + "\n\n" + p
  }

  /** Two trimmed texts glued by a blank line: trimmed, starting with the
      first and containing the second. */
  lemma GlueParagraph(a: string, p: string)
    requires a != [] && p != [] && IsTrimmed(a) && IsTrimmed(p)
    ensures var r := a + "\n\n" + p;
            IsTrimmed(r) && Contains(r, p) && StartsWith(r, a) && r != []
  {
    TrimmedGlue(a, "\n\n", p);
    ContainsSelf(p);
    ContainsInConcat(a + "\n\n", p, [], p);
    assert a + "\n\n" + p + [] == a + "\n\n" + p;
    assert (a + "\n\n" + p)[..|a|] == a;
  }

  /** Appending the same paragraph twice appends it once. */
  lemma AppendParagraphIdempotent(base: string, paragraph: string)
    ensures AppendParagraph(AppendParagraph(base, paragraph), paragraph) == AppendParagraph(base, paragraph)
  {
    var r := AppendParagraph(base, paragraph);
    TrimmedFixpoint(r);
  }

  // ---------------------------------------------------------------------------
  // assemble
  // ---------------------------------------------------------------------------

  /** `parsed.html` when it is a string, "" otherwise. */
  function ParsedHtml(parsed: Option<JVal>): string {
    var h := GetOpt(parsed, "html");
    if h.Some? && h.value.JStr? then h.value.str else []
  }

  /** `Array.isArray(x) ? x : []` */
  function ArrayOr(o: Option<JVal>): seq<JVal> {
    if o.Some? && o.value.JArr? then o.value.items else []
  }

  /** The entries `...(parsed && parsed.meta ? parsed.meta : {})` spreads. */
  function MetaEntries(parsed: Option<JVal>): seq<(string, JVal)> {
    var m := GetOpt(parsed, "meta");
    if Present(m) then Entries(m.value) else []
  }

  /** The sections after the evidence paragraph is appended. */
  function AssembledSections(c: Coercion, parsed: Option<JVal>, payload: Option<JVal>): (s: Sections)
    ensures AllTrimmed(s)
  {
    var base := NormalizeSectionsObject(GetOpt(parsed, "sections"));
    var provas := ProvasParagraph(c, payload);
    if provas != [] then base.(pedidos := AppendParagraph(base.pedidos, provas)) else base
  }

  /** The html of the reply: the parsed answer's, or the fallback when the
      answer brought none and some section has text. */
  function HtmlFor(parsedHtml: string, s: Sections): (h: string)
    ensures parsedHtml != [] ==> h == parsedHtml
    ensures parsedHtml == [] && !HasAnyText(s) ==> h == []
    ensures parsedHtml == [] && HasAnyText(s) ==> h == BuildHtmlFromSections(s)
    ensures HasAnyText(s) ==> h != []
  {
    if parsedHtml == [] && HasAnyText(s) then
      var h := BuildHtmlFromSections(s);
      assert |h| >= |HtmlOpen| > 0;
      h
    else parsedHtml
  }

  /** `{ ...meta, hasSections: has }` */
  function MetaFor(meta: seq<(string, JVal)>, has: bool): (m: seq<(string, JVal)>)
    ensures Lookup(m, "hasSections") == Some(JBool(has))
    ensures forall k :: k != "hasSections" ==> Lookup(m, k) == Lookup(Spread([], meta), k)
    ensures UniqueKeys(m)
  {
    var spread := Spread([], meta);
    SpreadUnique([], meta);
    SetKeyUnique(spread, "hasSections", JBool(has));
    SetKey(spread, "hasSections", JBool(has))
  }

  /** `assemble(parsed, { payload })` */
  function Assemble(c: Coercion, parsed: Option<JVal>, payload: Option<JVal>): (r: Reply)
    ensures r.ok <==> Present(GetOpt(parsed, "ok"))
    ensures AllTrimmed(r.sections)
    ensures r.html == HtmlFor(ParsedHtml(parsed), r.sections)
    ensures r.alerts == ArrayOr(GetOpt(parsed, "alerts")) && r.missing == ArrayOr(GetOpt(parsed, "missing"))
    ensures r.meta == MetaFor(MetaEntries(parsed), HasAnyText(r.sections))
  {
    var sections := AssembledSections(c, parsed, payload);
    Reply(Present(GetOpt(parsed, "ok")), HtmlFor(ParsedHtml(parsed), sections), sections,
          ArrayOr(GetOpt(parsed, "alerts")), ArrayOr(GetOpt(parsed, "missing")),
          MetaFor(MetaEntries(parsed), HasAnyText(sections)))
  }

  /** Assembly is idempotent: assembling an assembled reply again, with the
      same payload, gives the same reply. */
  lemma AssembleIdempotent(c: Coercion, parsed: Option<JVal>, payload: Option<JVal>)
    ensures var r := Assemble(c, parsed, payload);
      Assemble(c, Some(ReplyToJson(r)), payload) == r
  {
    var r := Assemble(c, parsed, payload);
    ReplyToJsonLookup(r);
    Reassembled(c, parsed, payload, Some(ReplyToJson(r)));
  }

  /** Any input that reads back the fields of an assembled reply assembles
      to that same reply. */
  lemma Reassembled(c: Coercion, parsed: Option<JVal>, payload: Option<JVal>, again: Option<JVal>)
    requires var r := Assemble(c, parsed, payload);
      && GetOpt(again, "ok") == Some(JBool(r.ok))
      && GetOpt(again, "html") == Some(JStr(r.html))
      && GetOpt(again, "sections") == Some(SectionsToJson(r.sections))
      && GetOpt(again, "alerts") == Some(JArr(r.alerts))
      && GetOpt(again, "missing") == Some(JArr(r.missing))
      && GetOpt(again, "meta") == Some(JObj(r.meta))
    ensures Assemble(c, again, payload) == Assemble(c, parsed, payload)
  {
    var r := Assemble(c, parsed, payload);
    var s := r.sections;
    assert AssembledSections(c, again, payload) == s by {
      ReassembledSections(c, parsed, payload, again);
    }
    assert HtmlFor(ParsedHtml(again), s) == r.html by {
      ReassembledHtml(ParsedHtml(parsed), s, again);
    }
    assert MetaFor(MetaEntries(again), HasAnyText(s)) == r.meta by {
      ReassembledMetaFor(MetaEntries(parsed), HasAnyText(s), again);
    }
    assert Present(GetOpt(again, "ok")) == r.ok;
    ArrayOrArray(GetOpt(again, "alerts"), r.alerts);
    ArrayOrArray(GetOpt(again, "missing"), r.missing);
  }

  lemma ArrayOrArray(o: Option<JVal>, items: seq<JVal>)
    requires o == Some(JArr(items))
    ensures ArrayOr(o) == items
  {
  }

  /** The html of an assembled reply, read back, is chosen again. */
  lemma ReassembledHtml(h: string, s: Sections, again: Option<JVal>)
    requires GetOpt(again, "html") == Some(JStr(HtmlFor(h, s)))
    ensures HtmlFor(ParsedHtml(again), s) == HtmlFor(h, s)
  {
    HtmlForIdempotent(h, s);
  }

  /** The metadata of an assembled reply, read back, is rebuilt unchanged. */
  lemma ReassembledMetaFor(meta: seq<(string, JVal)>, has: bool, again: Option<JVal>)
    requires GetOpt(again, "meta") == Some(JObj(MetaFor(meta, has)))
    ensures MetaFor(MetaEntries(again), has) == MetaFor(meta, has)
  {
    MetaEntriesOfObject(again, MetaFor(meta, has));
    ReassembledMeta(MetaFor(meta, has), has);
  }

  lemma MetaEntriesOfObject(parsed: Option<JVal>, meta: seq<(string, JVal)>)
    requires GetOpt(parsed, "meta") == Some(JObj(meta))
    ensures MetaEntries(parsed) == meta
  {
  }

  /** The html choice made twice is the html choice made once. */
  lemma HtmlForIdempotent(h: string, s: Sections)
    ensures HtmlFor(HtmlFor(h, s), s) == HtmlFor(h, s)
  {
  }

  /** The sections survive a second assembly with the same payload. */
  lemma ReassembledSections(c: Coercion, parsed: Option<JVal>, payload: Option<JVal>, again: Option<JVal>)
    requires GetOpt(again, "sections") == Some(SectionsToJson(AssembledSections(c, parsed, payload)))
    ensures AssembledSections(c, again, payload) == AssembledSections(c, parsed, payload)
  {
    var s := AssembledSections(c, parsed, payload);
    NormalizeSectionsRoundTrip(s);
    var base := NormalizeSectionsObject(GetOpt(parsed, "sections"));
    var provas := ProvasParagraph(c, payload);
    if provas != [] {
      AppendParagraphIdempotent(base.pedidos, provas);
      assert s.pedidos == AppendParagraph(base.pedidos, provas);
    }
  }

  /** Metadata that already carries `hasSections` survives a second
      assembly. */
  lemma ReassembledMeta(meta: seq<(string, JVal)>, has: bool)
    requires UniqueKeys(meta) && Lookup(meta, "hasSections") == Some(JBool(has))
    ensures MetaFor(Entries(JObj(meta)), has) == meta
  {
    assert Spread([], Entries(JObj(meta))) == meta by {
      SpreadFresh([], meta);
      assert [] + meta == meta;
    }
    SetKeySame(meta, "hasSections", JBool(has));
  }
}
