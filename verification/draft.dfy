/** The data shapes every stage of the draft pipeline exchanges: the
    seven-section object, alerts, missing-field entries, the response
    envelope, and the error a stage throws. */
module Draft {
  import opened Wrappers
  import opened Text
  import opened Json

  /** The petition's seven sections, always all present, always strings. */
  datatype Sections = Sections(
    enderecamento: string,
    qualificacao: string,
    fatos: string,
    direito: string,
    pedidos: string,
    valor_causa: string,
    requerimentos_finais: string)

  /** The section keys in their fixed order. */
  const SectionKeys: seq<string> :=
    ["enderecamento", "qualificacao", "fatos", "direito", "pedidos", "valor_causa", "requerimentos_finais"]

  /** The section texts, in the order of `SectionKeys`. */
  function Values(s: Sections): (vs: seq<string>)
    ensures |vs| == |SectionKeys|
  {
    [s.enderecamento, s.qualificacao, s.fatos, s.direito, s.pedidos, s.valor_causa, s.requerimentos_finais]
  }

  /** A leveled, non-blocking diagnostic. */
  datatype Alert = Alert(level: string, code: string, message: string)

  /** A required field found empty. */
  datatype MissingField = MissingField(path: string, title: string)

  /** Alerts split by level, the shape `groupAlerts` returns and the HTML
      report renders. */
  datatype Grouped = Grouped(error: seq<Alert>, warn: seq<Alert>, info: seq<Alert>)

  /** `{ok, html, sections, alerts, missing, meta}`, the draft response. */
  datatype Envelope = Envelope(
    ok: bool,
    html: string,
    sections: Sections,
    alerts: seq<Alert>,
    missing: seq<JVal>,
    meta: seq<(string, JVal)>)

  /** The same six fields as the HTTP handlers send them: alerts and missing
      entries are whatever JSON values the previous stage produced. */
  datatype Reply = Reply(
    ok: bool,
    html: string,
    sections: Sections,
    alerts: seq<JVal>,
    missing: seq<JVal>,
    meta: seq<(string, JVal)>)

  /** A thrown `Error`; `statusCode` 0 stands for an error without one. */
  datatype Thrown = Thrown(message: string, statusCode: int)

  const LevelInfo: string := "info"
  const LevelWarn: string := "warn"
  const LevelError: string := "error"

  // ---------------------------------------------------------------------------
  // Sections from and to JSON
  // ---------------------------------------------------------------------------

  /** `emptySectionsObject()` */
  function EmptySections(): (s: Sections)
    ensures forall i :: 0 <= i < |SectionKeys| ==> Values(s)[i] == []
  {
    Sections("", "", "", "", "", "", "")
  }

  /** `typeof v === "string" ? v.trim() : ""` */
  function SafeText(o: Option<JVal>): (r: string)
    ensures IsTrimmed(r)
  {
    TrimIsTrimmed(if o.Some? && o.value.JStr? then o.value.str else []);
    if o.Some? && o.value.JStr? then Trim(o.value.str) else []
  }

  /** Normalisation of any value into the seven-section record: each key's
      trimmed string, "" for a missing or non-string value; other keys are
      dropped and a non-object yields seven empty strings. */
  function SectionsFromJson(v: JVal): (r: Sections)
    ensures AllTrimmed(r)
    ensures !v.JObj? ==> r == EmptySections()
  {
    Sections(
      SafeText(Get(v, "enderecamento")),
      SafeText(Get(v, "qualificacao")),
      SafeText(Get(v, "fatos")),
      SafeText(Get(v, "direito")),
      SafeText(Get(v, "pedidos")),
      SafeText(Get(v, "valor_causa")),
      SafeText(Get(v, "requerimentos_finais")))
  }

  /** The sections as the JSON object the HTTP layer sends. */
  function SectionsToJson(s: Sections): (v: JVal)
    ensures v.JObj? && Keys(v.entries) == SectionKeys
  {
    JObj([
      ("enderecamento", JStr(s.enderecamento)),
      ("qualificacao", JStr(s.qualificacao)),
      ("fatos", JStr(s.fatos)),
      ("direito", JStr(s.direito)),
      ("pedidos", JStr(s.pedidos)),
      ("valor_causa", JStr(s.valor_causa)),
      ("requerimentos_finais", JStr(s.requerimentos_finais))])
  }

  /** The seven section names are pairwise different. */
  lemma SectionKeysDistinct()
    ensures forall i, j :: 0 <= i < j < |SectionKeys| ==> SectionKeys[i] != SectionKeys[j]
  {
  }

  /** Reading a key of the section object finds that section's text. */
  lemma SectionsToJsonLookup(s: Sections)
    ensures Get(SectionsToJson(s), "enderecamento") == Some(JStr(s.enderecamento))
    ensures Get(SectionsToJson(s), "qualificacao") == Some(JStr(s.qualificacao))
    ensures Get(SectionsToJson(s), "fatos") == Some(JStr(s.fatos))
    ensures Get(SectionsToJson(s), "direito") == Some(JStr(s.direito))
    ensures Get(SectionsToJson(s), "pedidos") == Some(JStr(s.pedidos))
    ensures Get(SectionsToJson(s), "valor_causa") == Some(JStr(s.valor_causa))
    ensures Get(SectionsToJson(s), "requerimentos_finais") == Some(JStr(s.requerimentos_finais))
  {
    var es := SectionsToJson(s).entries;
    SectionKeysDistinct();
    assert forall i :: 0 <= i < |es| ==> es[i].0 == SectionKeys[i];
    LookupAt(es, 0);
    LookupAt(es, 1);
    LookupAt(es, 2);
    LookupAt(es, 3);
    LookupAt(es, 4);
    LookupAt(es, 5);
    LookupAt(es, 6);
  }

  /** Every section already trimmed: what normalisation always produces. */
  predicate AllTrimmed(s: Sections) {
    && IsTrimmed(s.enderecamento) && IsTrimmed(s.qualificacao) && IsTrimmed(s.fatos)
    && IsTrimmed(s.direito) && IsTrimmed(s.pedidos) && IsTrimmed(s.valor_causa)
    && IsTrimmed(s.requerimentos_finais)
  }

  /** Re-normalising a section record trims each text and nothing else, so
      normalising twice is normalising once. */
  lemma SectionsRoundTrip(s: Sections)
    ensures SectionsFromJson(SectionsToJson(s)) ==
      Sections(Trim(s.enderecamento), Trim(s.qualificacao), Trim(s.fatos), Trim(s.direito),
               Trim(s.pedidos), Trim(s.valor_causa), Trim(s.requerimentos_finais))
    ensures AllTrimmed(s) ==> SectionsFromJson(SectionsToJson(s)) == s
  {
    var v := SectionsToJson(s);
    SectionsToJsonLookup(s);
    var r := SectionsFromJson(v);
    assert r.enderecamento == Trim(s.enderecamento);
    assert r.qualificacao == Trim(s.qualificacao);
    assert r.fatos == Trim(s.fatos);
    assert r.direito == Trim(s.direito);
    assert r.pedidos == Trim(s.pedidos);
    assert r.valor_causa == Trim(s.valor_causa);
    assert r.requerimentos_finais == Trim(s.requerimentos_finais);
    if AllTrimmed(s) {
      TrimmedFixpoint(s.enderecamento);
      TrimmedFixpoint(s.qualificacao);
      TrimmedFixpoint(s.fatos);
      TrimmedFixpoint(s.direito);
      TrimmedFixpoint(s.pedidos);
      TrimmedFixpoint(s.valor_causa);
      TrimmedFixpoint(s.requerimentos_finais);
    }
  }

  /** Trimmed sections come back unchanged from their JSON form. */
  lemma SectionsRoundTripTrimmed(s: Sections)
    requires AllTrimmed(s)
    ensures SectionsFromJson(SectionsToJson(s)) == s
  {
    SectionsRoundTrip(s);
  }

  /** Normalisation is idempotent. */
  lemma SectionsNormalizeIdempotent(v: JVal)
    ensures SectionsFromJson(SectionsToJson(SectionsFromJson(v))) == SectionsFromJson(v)
  {
    SectionsRoundTrip(SectionsFromJson(v));
  }

  /** Keys outside the seven never reach the normalised record. */
  lemma SectionsIgnoreUnknownKeys(v: JVal, w: JVal)
    requires forall i :: 0 <= i < |SectionKeys| ==> Get(v, SectionKeys[i]) == Get(w, SectionKeys[i])
    ensures SectionsFromJson(v) == SectionsFromJson(w)
  {
    assert Get(v, SectionKeys[0]) == Get(w, SectionKeys[0]);
    assert Get(v, SectionKeys[1]) == Get(w, SectionKeys[1]);
    assert Get(v, SectionKeys[2]) == Get(w, SectionKeys[2]);
    assert Get(v, SectionKeys[3]) == Get(w, SectionKeys[3]);
    assert Get(v, SectionKeys[4]) == Get(w, SectionKeys[4]);
    assert Get(v, SectionKeys[5]) == Get(w, SectionKeys[5]);
    assert Get(v, SectionKeys[6]) == Get(w, SectionKeys[6]);
  }

  // ---------------------------------------------------------------------------
  // "Has any section text"
  // ---------------------------------------------------------------------------

  /** Some section has non-blank text. */
  predicate HasAnyText(s: Sections) {
    exists i :: 0 <= i < |SectionKeys| && !IsBlank(Values(s)[i])
  }

  /** `hasAnySectionText(obj)`: for an object (or array), some value is a
      string whose trimmed text is non-empty. */
  predicate HasAnyStringText(v: JVal) {
    if v.JObj? then exists i :: 0 <= i < |v.entries| && v.entries[i].1.JStr? && !IsBlank(v.entries[i].1.str)
    else if v.JArr? then exists i :: 0 <= i < |v.items| && v.items[i].JStr? && !IsBlank(v.items[i].str)
    else false
  }

  /** The generic object test agrees with the record test on section objects. */
  lemma HasAnyTextAgrees(s: Sections)
    ensures HasAnyStringText(SectionsToJson(s)) <==> HasAnyText(s)
  {
    SectionsToJsonValues(s);
    StringTextAgrees(SectionsToJson(s).entries, Values(s));
  }

  /** The object's values are the section texts, in order. */
  lemma SectionsToJsonValues(s: Sections)
    ensures var es := SectionsToJson(s).entries;
            |es| == |Values(s)| && forall i :: 0 <= i < |es| ==> es[i].1 == JStr(Values(s)[i])
  {
    var es := SectionsToJson(s).entries;
    var vs := Values(s);
    assert |es| == 7;
    forall i | 0 <= i < 7 ensures es[i].1 == JStr(vs[i]) {
      assert es[i].1 == [JStr(vs[0]), JStr(vs[1]), JStr(vs[2]), JStr(vs[3]), JStr(vs[4]), JStr(vs[5]), JStr(vs[6])][i];
    }
  }

  /** Entries holding the strings `vs`, in order, have a non-blank string
      exactly when `vs` has a non-blank text. */
  lemma StringTextAgrees(es: seq<(string, JVal)>, vs: seq<string>)
    requires |es| == |vs| && forall i :: 0 <= i < |es| ==> es[i].1 == JStr(vs[i])
    ensures (exists i :: 0 <= i < |es| && es[i].1.JStr? && !IsBlank(es[i].1.str))
            <==> (exists i :: 0 <= i < |vs| && !IsBlank(vs[i]))
  {
    if exists i :: 0 <= i < |vs| && !IsBlank(vs[i]) {
      var i :| 0 <= i < |vs| && !IsBlank(vs[i]);
      assert es[i].1.JStr? && !IsBlank(es[i].1.str);
    }
  }

  // ---------------------------------------------------------------------------
  // JSON forms of the records
  // ---------------------------------------------------------------------------

  function AlertToJson(a: Alert): JVal {
    JObj([("level", JStr(a.level)), ("code", JStr(a.code)), ("message", JStr(a.message))])
  }

  function MissingToJson(m: MissingField): JVal {
    JObj([("path", JStr(m.path)), ("label", JStr(m.title))])
  }

  function AlertsToJson(alerts: seq<Alert>): (v: JVal)
    ensures v.JArr? && |v.items| == |alerts|
  {
    JArr(seq(|alerts|, i requires 0 <= i < |alerts| => AlertToJson(alerts[i])))
  }

  function MissingListToJson(ms: seq<MissingField>): (vs: seq<JVal>)
    ensures |vs| == |ms|
  {
    seq(|ms|, i requires 0 <= i < |ms| => MissingToJson(ms[i]))
  }

  /** The envelope's entries in the order the handlers write them. */
  function EnvelopeEntries(e: Envelope): (es: seq<(string, JVal)>)
    ensures Keys(es) == ["ok", "html", "sections", "alerts", "missing", "meta"]
  {
    [("ok", JBool(e.ok)), ("html", JStr(e.html)), ("sections", SectionsToJson(e.sections)),
     ("alerts", AlertsToJson(e.alerts)), ("missing", JArr(e.missing)), ("meta", JObj(e.meta))]
  }

  /** How many alerts carry `code`. */
  function CountCode(alerts: seq<Alert>, code: string): nat
    decreases |alerts|
  {
    if |alerts| == 0 then 0
    else (if alerts[0].code == code then 1 else 0) + CountCode(alerts[1..], code)
  }

  /** Counting distributes over concatenation. */
  lemma {:induction false} CountCodeConcat(a: seq<Alert>, b: seq<Alert>, code: string)
    ensures CountCode(a + b, code) == CountCode(a, code) + CountCode(b, code)
    decreases |a|
  {
    if |a| > 0 {
      assert (a + b)[0] == a[0];
      assert (a + b)[1..] == a[1..] + b;
      CountCodeConcat(a[1..], b, code);
    } else {
      assert a + b == b;
    }
  }

  lemma CountCodeOne(a: Alert)
    ensures forall code :: CountCode([a], code) == if a.code == code then 1 else 0
  {
    assert [a][1..] == [];
  }

  lemma CountCodeConcatAll(a: seq<Alert>, b: seq<Alert>)
    ensures forall code :: CountCode(a + b, code) == CountCode(a, code) + CountCode(b, code)
  {
    forall code ensures CountCode(a + b, code) == CountCode(a, code) + CountCode(b, code) {
      CountCodeConcat(a, b, code);
    }
  }

  /** The alert every error path reports. */
  function HandlerError(message: string): Alert {
    Alert(LevelError, "DRAFT_COBRANCA_ERR", message)
  }

  /** The degraded reply every error path returns: not ok, no html, seven
      empty sections, one `DRAFT_COBRANCA_ERR` error alert, nothing missing. */
  function ErrorReply(message: string, meta: seq<(string, JVal)>): (e: Reply)
    ensures !e.ok && e.html == [] && e.sections == EmptySections() && e.missing == []
    ensures |e.alerts| == 1 && e.alerts[0] == AlertToJson(HandlerError(message))
    ensures e.meta == meta
  {
    Reply(false, "", EmptySections(), [AlertToJson(HandlerError(message))], [], meta)
  }

  /** The reply's keys, in the order the handlers write them. */
  const ReplyKeys: seq<string> := ["ok", "html", "sections", "alerts", "missing", "meta"]

  /** A reply as the JSON object the handlers send. */
  function ReplyToJson(r: Reply): (v: JVal)
    ensures v.JObj? && Keys(v.entries) == ReplyKeys
  {
    JObj([("ok", JBool(r.ok)), ("html", JStr(r.html)), ("sections", SectionsToJson(r.sections)),
          ("alerts", JArr(r.alerts)), ("missing", JArr(r.missing)), ("meta", JObj(r.meta))])
  }

  lemma ReplyKeysDistinct()
    ensures forall i, j :: 0 <= i < j < |ReplyKeys| ==> ReplyKeys[i] != ReplyKeys[j]
  {
  }

  /** Each field of a reply is read back from its JSON form. */
  lemma ReplyToJsonLookup(r: Reply)
    ensures Get(ReplyToJson(r), "ok") == Some(JBool(r.ok))
    ensures Get(ReplyToJson(r), "html") == Some(JStr(r.html))
    ensures Get(ReplyToJson(r), "sections") == Some(SectionsToJson(r.sections))
    ensures Get(ReplyToJson(r), "alerts") == Some(JArr(r.alerts))
    ensures Get(ReplyToJson(r), "missing") == Some(JArr(r.missing))
    ensures Get(ReplyToJson(r), "meta") == Some(JObj(r.meta))
  {
    var es := ReplyToJson(r).entries;
    ReplyKeysDistinct();
    assert forall i :: 0 <= i < |es| ==> es[i].0 == ReplyKeys[i];
    LookupAt(es, 0);
    LookupAt(es, 1);
    LookupAt(es, 2);
    LookupAt(es, 3);
    LookupAt(es, 4);
    LookupAt(es, 5);
  }

  /** `err.message` with the handlers' fallback text. */
  function MessageOf(f: Thrown): (m: string)
    ensures f.message != [] ==> m == f.message
    ensures m != []
  {
    if f.message != [] then f.message else "Erro inesperado"
  }

  /** `err.statusCode ? Number(err.statusCode) : 500` */
  function StatusOf(f: Thrown): (code: int)
    ensures f.statusCode != 0 ==> code == f.statusCode
    ensures f.statusCode == 0 ==> code == 500
  {
    if f.statusCode != 0 then f.statusCode else 500
  }
}
