/** The deterministic side of prompt building: clipping oversized input
    fields, the per-section paragraph guidance taken from a template, and the
    version defaulting that ties the prompt's `meta` to its user payload. The
    template file is read through a loader parameter; the fixed system prose
    is represented by which of the two rule sets is sent. */
module Prompt {
  import opened Wrappers
  import opened Text
  import opened Json
  import opened Draft

  const MaxFieldChars: nat := 8000
  const FieldEllipsis: string := "…"
  const DefaultTemplateVersion: string := "cobranca_v1_2"
  const DefaultPromptVersion: string := "2.0"

  /** The template a file name designates, already parsed, or the message of
      the read or parse error. */
  type TemplateLoader = string -> Result<JVal, string>

  // ---------------------------------------------------------------------------
  // Field clipping
  // ---------------------------------------------------------------------------

  /** A string field as the prompt carries it: at most 8000 characters, with
      an ellipsis marking a cut. */
  function ClipField(s: string): (r: string)
    ensures |r| <= MaxFieldChars + 1
    ensures |s| <= MaxFieldChars ==> r == s
    ensures |s| > MaxFieldChars ==> r == s[..MaxFieldChars] + FieldEllipsis
  {
    Clip(s, MaxFieldChars, FieldEllipsis)
  }

  /** `sanitizeInputData` applied to a value: strings are clipped, objects and
      arrays are rebuilt as objects with every value sanitised (an array's
      indices becoming its keys), and numbers, booleans and null pass. The
      rebuilt object is filled by assignment, so a `__proto__` entry does
      not survive. */
  function Sanitize(v: JVal): (r: JVal)
    ensures v.JObj? ==> r.JObj? && Keys(r.entries) == Omit(Keys(v.entries), ProtoKey)
    ensures v.JArr? ==> r.JObj? && Keys(r.entries) == Keys(Entries(v))
    ensures v.JStr? ==> r.JStr? && |r.str| <= MaxFieldChars + 1
    ensures !IsObjectLike(v) && !v.JStr? ==> r == v
    decreases v
  {
    match v
    case JStr(t) => JStr(ClipField(t))
    case JObj(es) =>
      var out := seq(|es|, i requires 0 <= i < |es| => (es[i].0, Sanitize(es[i].1)));
      assert Keys(out) == Keys(es) by {
        assert forall i :: 0 <= i < |es| ==> Keys(out)[i] == Keys(es)[i];
      }
      JObj(Stored(out))
    case JArr(items) =>
      // Index keys are digits, never `__proto__`: every one is stored.
      var out := seq(|items|, i requires 0 <= i < |items| => (NatToString(i), Sanitize(items[i])));
      assert forall i :: 0 <= i < |items| ==> Keys(out)[i] == Keys(Entries(v))[i];
      JObj(out)
    case _ => v
  }

  /** The sanitised entries of an object, before they are stored. */
  function SanitizedEntries(es: seq<(string, JVal)>): (out: seq<(string, JVal)>)
    ensures |out| == |es| && Keys(out) == Keys(es)
    ensures forall i :: 0 <= i < |es| ==> out[i] == (es[i].0, Sanitize(es[i].1))
  {
    var out := seq(|es|, i requires 0 <= i < |es| => (es[i].0, Sanitize(es[i].1)));
    assert forall i :: 0 <= i < |es| ==> Keys(out)[i] == Keys(es)[i];
    out
  }

  /** An object or an array sanitises to its enumerated entries, each
      value sanitised, as assignments store them. */
  lemma SanitizeObjectLike(d: JVal)
    requires IsObjectLike(d)
    ensures Sanitize(d) == JObj(Stored(SanitizedEntries(Entries(d))))
  {
    var out := SanitizedEntries(Entries(d));
    if d.JArr? {
      assert Sanitize(d).entries == out;
      EntriesNoProto(d);
      StoredAll(out);
    }
  }

  /** Every string anywhere inside `v` is at most `n` characters long. */
  predicate Bounded(v: JVal, n: nat)
    decreases v
  {
    match v
    case JStr(t) => |t| <= n
    case JArr(items) => forall i :: 0 <= i < |items| ==> Bounded(items[i], n)
    case JObj(es) => forall i :: 0 <= i < |es| ==> Bounded(es[i].1, n)
    case _ => true
  }

  /** `v` holds no array at any depth. */
  predicate ArrayFree(v: JVal)
    decreases v
  {
    match v
    case JArr(_) => false
    case JObj(es) => forall i :: 0 <= i < |es| ==> ArrayFree(es[i].1)
    case _ => true
  }

  /** No object inside `v`, at any depth, has a `__proto__` entry. */
  predicate ProtoFree(v: JVal)
    decreases v
  {
    match v
    case JArr(items) => forall i :: 0 <= i < |items| ==> ProtoFree(items[i])
    case JObj(es) => ProtoKey !in Keys(es) && forall i :: 0 <= i < |es| ==> ProtoFree(es[i].1)
    case _ => true
  }

  /** `v` with the `__proto__` entries of its objects, at every depth,
      dropped. */
  function WithoutProto(v: JVal): (r: JVal)
    decreases v
  {
    match v
    case JArr(items) => JArr(seq(|items|, i requires 0 <= i < |items| => WithoutProto(items[i])))
    case JObj(es) => JObj(Stored(seq(|es|, i requires 0 <= i < |es| => (es[i].0, WithoutProto(es[i].1)))))
    case _ => v
  }

  /** A value without `__proto__` entries loses nothing. */
  lemma {:induction false} WithoutProtoFree(v: JVal)
    requires ProtoFree(v)
    ensures WithoutProto(v) == v
    decreases v
  {
    match v
    case JArr(items) =>
      forall i | 0 <= i < |items| ensures WithoutProto(items[i]) == items[i] {
        WithoutProtoFree(items[i]);
      }
    case JObj(es) =>
      forall i | 0 <= i < |es| ensures WithoutProto(es[i].1) == es[i].1 {
        WithoutProtoFree(es[i].1);
      }
      var out := seq(|es|, i requires 0 <= i < |es| => (es[i].0, WithoutProto(es[i].1)));
      assert out == es;
      StoredAll(es);
    case _ =>
  }

  /** Every value of a sanitised object is the sanitised value of some
      entry. */
  lemma SanitizedFrom(es: seq<(string, JVal)>, i: nat) returns (j: nat)
    requires i < |Sanitize(JObj(es)).entries|
    ensures j < |es| && Sanitize(JObj(es)).entries[i] == (es[j].0, Sanitize(es[j].1))
  {
    assert Sanitize(JObj(es)).entries == Stored(SanitizedEntries(es));
    j := StoredFrom(SanitizedEntries(es), i);
  }

  /** After sanitising, no string anywhere exceeds 8000 characters plus the
      ellipsis. */
  lemma {:induction false} SanitizeBounded(v: JVal)
    ensures Bounded(Sanitize(v), MaxFieldChars + 1)
    decreases v
  {
    match v
    case JObj(es) =>
      var r := Sanitize(v).entries;
      forall i | 0 <= i < |r| ensures Bounded(r[i].1, MaxFieldChars + 1) {
        var j := SanitizedFrom(es, i);
        SanitizeBounded(es[j].1);
      }
    case JArr(items) =>
      var r := Sanitize(v).entries;
      forall i | 0 <= i < |r| ensures Bounded(r[i].1, MaxFieldChars + 1) {
        SanitizeBounded(items[i]);
      }
    case _ =>
  }

  /** Sanitising an already sanitised value changes nothing. */
  lemma {:induction false} SanitizeIdempotent(v: JVal)
    ensures Sanitize(Sanitize(v)) == Sanitize(v)
    decreases v
  {
    match v
    case JStr(t) =>
      ClipIdempotent(t, MaxFieldChars, FieldEllipsis);
    case JObj(es) =>
      var r := Sanitize(v).entries;
      forall i | 0 <= i < |r| ensures Sanitize(r[i].1) == r[i].1 {
        var j := SanitizedFrom(es, i);
        SanitizeIdempotent(es[j].1);
      }
      assert ProtoKey !in Keys(r);
      SanitizeStoredAgain(r);
    case JArr(items) =>
      var r := Sanitize(v).entries;
      forall i | 0 <= i < |r| ensures Sanitize(r[i].1) == r[i].1 {
        SanitizeIdempotent(items[i]);
      }
      EntriesNoProto(v);
      SanitizeStoredAgain(r);
    case _ =>
  }

  /** Sanitising an object without `__proto__` whose values are already
      sanitised changes nothing. */
  lemma SanitizeStoredAgain(r: seq<(string, JVal)>)
    requires ProtoKey !in Keys(r)
    requires forall i :: 0 <= i < |r| ==> Sanitize(r[i].1) == r[i].1
    ensures Sanitize(JObj(r)) == JObj(r)
  {
    var out := SanitizedEntries(r);
    assert out == r;
    StoredAll(r);
    assert Sanitize(JObj(r)) == JObj(Stored(out));
  }

  /** A value without arrays whose strings are all within the limit is sent
      as given, less its `__proto__` entries; without those, exactly as
      given. */
  lemma {:induction false} SanitizeSmallUnchanged(v: JVal)
    requires ArrayFree(v) && Bounded(v, MaxFieldChars)
    ensures Sanitize(v) == WithoutProto(v)
    ensures ProtoFree(v) ==> Sanitize(v) == v
    decreases v
  {
    match v {
    case JObj(es) =>
      forall i | 0 <= i < |es| ensures Sanitize(es[i].1) == WithoutProto(es[i].1) {
        SanitizeSmallUnchanged(es[i].1);
      }
      var out := SanitizedEntries(es);
      assert out == seq(|es|, i requires 0 <= i < |es| => (es[i].0, WithoutProto(es[i].1)));
      assert Sanitize(v) == JObj(Stored(out));
    case _ =>
    }
    if ProtoFree(v) {
      WithoutProtoFree(v);
    }
  }

  /** `sanitizeInputData(payload.data || {})`: the entries of the data object
      (or of an array or string given in its place), each value sanitised,
      stored by assignment. */
  function SanitizeData(data: Option<JVal>): (es: seq<(string, JVal)>)
    ensures Keys(es) == Omit(Keys(Entries(Or(data, JObj([])))), ProtoKey)
    ensures IsObjectLike(Or(data, JObj([]))) ==> JObj(es) == Sanitize(Or(data, JObj([])))
    ensures !Present(data) ==> es == []
  {
    var d := Or(data, JObj([]));
    var es := Stored(SanitizedEntries(Entries(d)));
    assert IsObjectLike(d) ==> JObj(es) == Sanitize(d) by {
      if IsObjectLike(d) {
        SanitizeObjectLike(d);
      }
    }
    es
  }

  // ---------------------------------------------------------------------------
  // Section guidance
  // ---------------------------------------------------------------------------

  /** The message a property read on `null` throws. */
  const NullTemplateMessage: string := "Cannot read properties of null (reading 'sectionGuidance')"

  /** `tpl.sectionGuidance || {}`; reading it off `null` throws. */
  function GuidanceSource(tpl: JVal): (r: Option<JVal>)
    ensures r.None? <==> tpl.JNull?
  {
    if tpl.JNull? then None else Some(Or(Get(tpl, "sectionGuidance"), JObj([])))
  }

  /** The four settings of a section's guidance, in the order they are
      written. */
  const GuidanceKeys: seq<string> := ["minParagraphs", "maxParagraphs", "notes", "structure"]

  /** What each setting falls back to when the template's value is falsy. */
  const GuidanceFallbacks: seq<JVal> := [JNum(1.0), JNum(5.0), JStr(""), JArr([])]

  lemma GuidanceKeysDistinct()
    ensures forall i, j :: 0 <= i < j < |GuidanceKeys| ==> GuidanceKeys[i] != GuidanceKeys[j]
  {
  }

  /** `cfg[key] || fallback` */
  function Setting(cfg: JVal, key: string, fallback: JVal): JVal {
    Or(Get(cfg, key), fallback)
  }

  /** One section's guidance: `minParagraphs || 1`, `maxParagraphs || 5`,
      `notes || ""`, `structure || []` read from `cfg`. */
  function GuidanceEntry(cfg: JVal): (g: JVal)
    ensures g.JObj? && Keys(g.entries) == GuidanceKeys
    ensures forall i :: 0 <= i < |GuidanceKeys| ==>
              Get(g, GuidanceKeys[i]) == Some(Setting(cfg, GuidanceKeys[i], GuidanceFallbacks[i]))
  {
    var es := seq(|GuidanceKeys|, i requires 0 <= i < |GuidanceKeys| =>
      (GuidanceKeys[i], Setting(cfg, GuidanceKeys[i], GuidanceFallbacks[i])));
    assert forall i :: 0 <= i < |es| ==> Keys(es)[i] == GuidanceKeys[i];
    GuidanceKeysDistinct();
    LookupAll(es);
    JObj(es)
  }

  /** The guidance entries for the seven section keys, in their fixed order. */
  function GuidanceEntries(sg: JVal): (es: seq<(string, JVal)>)
    ensures Keys(es) == SectionKeys
    ensures forall i :: 0 <= i < |es| ==> es[i].1 == GuidanceEntry(Or(Get(sg, SectionKeys[i]), JObj([])))
  {
    var out := seq(|SectionKeys|, i requires 0 <= i < |SectionKeys| =>
      (SectionKeys[i], GuidanceEntry(Or(Get(sg, SectionKeys[i]), JObj([])))));
    assert forall i :: 0 <= i < |out| ==> Keys(out)[i] == SectionKeys[i];
    out
  }

  /** `buildSectionGuidance(tpl)`: exactly the seven section keys, whatever
      the template lists; `None` when the template is `null` (the read
      throws). */
  function SectionGuidance(tpl: JVal): (r: Option<JVal>)
    ensures r.None? <==> tpl.JNull?
    ensures r.Some? ==> r.value.JObj? && Keys(r.value.entries) == SectionKeys
  {
    match GuidanceSource(tpl)
    case None => None
    case Some(sg) => Some(JObj(GuidanceEntries(sg)))
  }

  /** A template's value wins over the default exactly when it is truthy, so
      both paragraph bounds always come out truthy and the paragraph checks
      that consume them always apply. */
  lemma GuidanceDefaults(cfg: JVal, i: nat)
    requires i < |GuidanceKeys|
    ensures Present(Get(cfg, GuidanceKeys[i])) ==> Get(GuidanceEntry(cfg), GuidanceKeys[i]) == Get(cfg, GuidanceKeys[i])
    ensures !Present(Get(cfg, GuidanceKeys[i])) ==> Get(GuidanceEntry(cfg), GuidanceKeys[i]) == Some(GuidanceFallbacks[i])
    ensures i <= 1 ==> Present(Get(GuidanceEntry(cfg), GuidanceKeys[i]))
  {
  }

  /** Defaulting a setting that was already defaulted changes nothing. */
  lemma SettingFixpoint(o: Option<JVal>, fallback: JVal)
    ensures Or(Some(Or(o, fallback)), fallback) == Or(o, fallback)
  {
  }

  /** Defaulting a complete entry again changes nothing. */
  lemma GuidanceEntryFixpoint(cfg: JVal)
    ensures GuidanceEntry(GuidanceEntry(cfg)) == GuidanceEntry(cfg)
  {
    var g := GuidanceEntry(cfg);
    var g2 := GuidanceEntry(g);
    forall i | 0 <= i < |GuidanceKeys| ensures g2.entries[i] == g.entries[i] {
      SettingFixpoint(Get(cfg, GuidanceKeys[i]), GuidanceFallbacks[i]);
    }
  }

  /** Rebuilding the entries from a previous result gives that result. */
  lemma GuidanceEntriesFixpoint(sg: JVal)
    ensures GuidanceEntries(JObj(GuidanceEntries(sg))) == GuidanceEntries(sg)
  {
    var es := GuidanceEntries(sg);
    var es2 := GuidanceEntries(JObj(es));
    forall i | 0 <= i < |SectionKeys| ensures es2[i] == es[i] {
      GuidanceEntryAgain(sg, i);
    }
  }

  lemma GuidanceEntryAgain(sg: JVal, i: nat)
    requires i < |SectionKeys|
    ensures GuidanceEntries(JObj(GuidanceEntries(sg)))[i] == GuidanceEntries(sg)[i]
  {
    var es := GuidanceEntries(sg);
    var g := GuidanceEntry(Or(Get(sg, SectionKeys[i]), JObj([])));
    assert Lookup(es, SectionKeys[i]) == Some(g) by {
      SectionKeysDistinct();
      assert forall k :: 0 <= k < |es| ==> es[k].0 == SectionKeys[k];
      LookupAt(es, i);
    }
    assert Or(Get(JObj(es), SectionKeys[i]), JObj([])) == g;
    GuidanceEntryFixpoint(Or(Get(sg, SectionKeys[i]), JObj([])));
  }

  /** A template whose guidance is a previous result yields that result
      again: the guidance is a fixpoint of its own construction. */
  lemma SectionGuidanceFixpoint(tpl: JVal)
    requires !tpl.JNull?
    ensures SectionGuidance(JObj([("sectionGuidance", SectionGuidance(tpl).value)])) == SectionGuidance(tpl)
  {
    var sg := Or(Get(tpl, "sectionGuidance"), JObj([]));
    var g := JObj(GuidanceEntries(sg));
    assert SectionGuidance(tpl) == Some(g);
    assert GuidanceSource(JObj([("sectionGuidance", g)])) == Some(g) by {
      assert Get(JObj([("sectionGuidance", g)]), "sectionGuidance") == Some(g);
    }
    GuidanceEntriesFixpoint(sg);
  }

  // ---------------------------------------------------------------------------
  // The older guidance builder
  // ---------------------------------------------------------------------------

  /** The older entry shape: `minParagraphs || 1`, `maxParagraphs || 3`,
      `notes || ""`; reading a property of a `null` entry throws. */
  function LegacyEntry(cfg: JVal): (g: Option<JVal>)
    ensures g.None? <==> cfg.JNull?
  {
    if cfg.JNull? then None
    else Some(JObj([("minParagraphs", Or(Get(cfg, "minParagraphs"), JNum(1.0))),
                    ("maxParagraphs", Or(Get(cfg, "maxParagraphs"), JNum(3.0))),
                    ("notes", Or(Get(cfg, "notes"), JStr("")))]))
  }

  /** The older entries, one per template entry, stopping at the first that
      throws. */
  function LegacyEntries(es: seq<(string, JVal)>): (r: Option<seq<(string, JVal)>>)
    ensures r.None? <==> exists i :: 0 <= i < |es| && es[i].1.JNull?
    ensures r.Some? ==> Keys(r.value) == Keys(es)
    ensures r.Some? ==> forall i :: 0 <= i < |es| ==> Some(r.value[i].1) == LegacyEntry(es[i].1)
    decreases |es|
  {
    if |es| == 0 then Some([])
    else
      match LegacyEntry(es[0].1)
      case None => None
      case Some(g) =>
        match LegacyEntries(es[1..])
        case None =>
          assert forall i :: 0 <= i < |es| - 1 ==> es[1..][i] == es[i + 1];
          None
        case Some(rest) =>
          assert forall i :: 0 <= i < |es| - 1 ==> es[1..][i] == es[i + 1];
          assert forall i :: 0 < i < |es| ==> es[i] == es[1..][i - 1];
          Some([(es[0].0, g)] + rest)
  }

  /** The older `buildSectionGuidance(tpl)`: one entry per key the template's
      own guidance enumerates, written one assignment after another into a
      fresh object (so a `__proto__` key stores nothing). */
  function LegacyGuidance(tpl: JVal): (r: Option<JVal>)
    ensures tpl.JNull? ==> r.None?
    ensures r.Some? ==> r.value.JObj?
  {
    match GuidanceSource(tpl)
    case None => None
    case Some(sg) =>
      match LegacyEntries(Entries(sg))
      case None => None
      case Some(out) => Some(JObj(Spread([], Stored(out))))
  }

  /** The older guidance names exactly the keys of the template's own
      guidance other than `__proto__`, in their order when they are distinct,
      rather than the seven section keys. */
  lemma LegacyGuidanceKeys(tpl: JVal)
    requires !tpl.JNull?
    requires forall i :: 0 <= i < |LegacySource(tpl)| ==> !LegacySource(tpl)[i].1.JNull?
    ensures LegacyGuidance(tpl).Some?
    ensures forall k :: Lookup(LegacyGuidance(tpl).value.entries, k).Some? <==> k in Keys(LegacySource(tpl)) && k != ProtoKey
    ensures UniqueKeys(LegacySource(tpl)) ==> Keys(LegacyGuidance(tpl).value.entries) == Omit(Keys(LegacySource(tpl)), ProtoKey)
  {
    var es := LegacySource(tpl);
    assert GuidanceSource(tpl) == Some(Or(Get(tpl, "sectionGuidance"), JObj([])));
    var out := LegacyEntries(es);
    assert out.Some?;
    assert LegacyGuidance(tpl) == Some(JObj(Spread([], Stored(out.value))));
    SpreadKeys(Stored(es), Stored(out.value));
    if UniqueKeys(es) {
      StoredUnique(es);
    }
  }

  /** The older guidance is missing exactly when a setting of the template's
      guidance is null. */
  lemma LegacyGuidanceNull(tpl: JVal)
    requires !tpl.JNull?
    ensures LegacyGuidance(tpl).None? <==> exists i :: 0 <= i < |LegacySource(tpl)| && LegacySource(tpl)[i].1.JNull?
  {
    var es := LegacySource(tpl);
    assert GuidanceSource(tpl) == Some(Or(Get(tpl, "sectionGuidance"), JObj([])));
    assert LegacyGuidance(tpl).None? <==> LegacyEntries(es).None?;
  }

  /** The entries the older builder enumerates: those of
      `tpl.sectionGuidance || {}`. */
  function LegacySource(tpl: JVal): seq<(string, JVal)> {
    Entries(Or(Get(tpl, "sectionGuidance"), JObj([])))
  }

  /** Spreading entries named like `es` into an empty object keeps exactly
      those names, in order when they are distinct. */
  lemma SpreadKeys(es: seq<(string, JVal)>, out: seq<(string, JVal)>)
    requires Keys(out) == Keys(es)
    ensures forall k :: Lookup(Spread([], out), k).Some? <==> k in Keys(es)
    ensures UniqueKeys(es) ==> Keys(Spread([], out)) == Keys(es)
  {
    if UniqueKeys(es) {
      assert forall i :: 0 <= i < |out| ==> out[i].0 == Keys(out)[i] == Keys(es)[i] == es[i].0;
      SpreadFresh([], out);
      assert [] + out == out;
    }
  }

  // ---------------------------------------------------------------------------
  // Prompt building
  // ---------------------------------------------------------------------------

  /** The fixed instructions sent as the system prompt: the current detailed
      rule set or the older short one. */
  datatype Rules = CurrentRules | LegacyRules

  /** `{system, user, meta}`; `user` is the object that is stringified. */
  datatype Prompt = Prompt(system: Rules, user: JVal, meta: JVal)

  const CurrentTask: string := "Gerar rascunho técnico, robusto e juridicamente elaborado de Ação de Cobrança."
  const LegacyTask: string := "Gerar petição inicial de ação de cobrança simples (rascunho revisável)."

  /** `String(x || fallback)` */
  function TextOr(c: Coercion, o: Option<JVal>, fallback: string): (r: string)
    ensures !Present(o) ==> r == fallback
    ensures Present(o) && o.value.JStr? ==> r == o.value.str
  {
    if Present(o) then ToStr(c, o.value) else fallback
  }

  /** The error thrown when the template cannot be read or parsed; it names
      the requested version. */
  function TemplateError(version: string, message: string): (e: Thrown)
    ensures StartsWith(e.message, "Falha ao carregar template " + version)
    ensures e.statusCode == 0
  {
    var head := "Falha ao carregar template " + version;
    assert (head + ": " + message)[..|head|] == head;
    Thrown(head + ": " + message, 0)
  }

  function VersionMeta(promptVersion: JVal, templateVersion: JVal): JVal {
    JObj([("promptVersion", promptVersion), ("templateVersion", templateVersion)])
  }

  const CurrentUserKeys: seq<string> := ["task", "inputData", "sectionGuidance", "meta"]

  lemma CurrentUserKeysDistinct()
    ensures forall i, j :: 0 <= i < j < |CurrentUserKeys| ==> CurrentUserKeys[i] != CurrentUserKeys[j]
  {
  }

  /** The object the current prompt stringifies as its user message. */
  function CurrentUser(input: JVal, guidance: JVal, meta: JVal): (u: JVal)
    ensures Get(u, "inputData") == Some(input)
    ensures Get(u, "sectionGuidance") == Some(guidance)
    ensures Get(u, "meta") == Some(meta)
  {
    var es := [("task", JStr(CurrentTask)), ("inputData", input), ("sectionGuidance", guidance), ("meta", meta)];
    CurrentUserKeysDistinct();
    assert forall i :: 0 <= i < |es| ==> es[i].0 == CurrentUserKeys[i];
    LookupAt(es, 1);
    LookupAt(es, 2);
    LookupAt(es, 3);
    JObj(es)
  }

  /** The template version a payload asks for. */
  function TemplateVersionOf(c: Coercion, payload: Option<JVal>): string {
    TextOr(c, GetOpt(payload, "templateVersion"), DefaultTemplateVersion)
  }

  /** The prompt version a payload asks for. */
  function PromptVersionOf(c: Coercion, payload: Option<JVal>): string {
    TextOr(c, GetOpt(payload, "promptVersion"), DefaultPromptVersion)
  }

  /** The template file a payload designates. */
  function TemplateFile(c: Coercion, payload: Option<JVal>): string {
    TemplateVersionOf(c, payload) + ".json"
  }

  /** `buildPrompt(payload)`: the versions default when absent, the template
      named by the version is loaded, and the user payload carries the
      sanitised `data`, the guidance and the same `meta` that is returned. */
  function BuildPrompt(c: Coercion, payload: Option<JVal>, load: TemplateLoader): (r: Result<Prompt, Thrown>)
    ensures payload == Some(JNull) ==> r.Failure?
    ensures payload != Some(JNull) && load(TemplateFile(c, payload)).Failure? ==>
              r == Failure(TemplateError(TemplateVersionOf(c, payload), load(TemplateFile(c, payload)).error))
    ensures r.Success? ==> r.value.system == CurrentRules
    ensures r.Success? ==> r.value.meta == VersionMeta(JStr(PromptVersionOf(c, payload)), JStr(TemplateVersionOf(c, payload)))
    ensures r.Success? ==> Get(r.value.user, "meta") == Some(r.value.meta)
    ensures r.Success? ==> Get(r.value.user, "inputData") == Some(JObj(SanitizeData(GetOpt(payload, "data"))))
    ensures r.Success? ==> Get(r.value.user, "sectionGuidance") == SectionGuidance(load(TemplateFile(c, payload)).value)
  {
    if payload == Some(JNull) then Failure(Thrown("Cannot read properties of null (reading 'templateVersion')", 0))
    else
      var tv := TemplateVersionOf(c, payload);
      match load(tv + ".json")
      case Failure(msg) => Failure(TemplateError(tv, msg))
      case Success(tpl) =>
        match SectionGuidance(tpl)
        case None => Failure(Thrown(NullTemplateMessage, 0))
        case Some(g) =>
          var meta := VersionMeta(JStr(PromptVersionOf(c, payload)), JStr(tv));
          Success(Prompt(CurrentRules, CurrentUser(JObj(SanitizeData(GetOpt(payload, "data"))), g, meta), meta))
  }

  /** With no versions given, the defaults appear in the returned `meta`. */
  lemma BuildPromptDefaults(c: Coercion, load: TemplateLoader)
    requires BuildPrompt(c, Some(JObj([])), load).Success?
    ensures BuildPrompt(c, Some(JObj([])), load).value.meta ==
            VersionMeta(JStr(DefaultPromptVersion), JStr(DefaultTemplateVersion))
  {
  }

  /** `String(x)` where `x` may be `undefined`. */
  function ToStrOpt(c: Coercion, o: Option<JVal>): string {
    if o.Some? then ToStr(c, o.value) else "undefined"
  }

  /** The entries of the object the older prompt stringifies as its user
      message; an `undefined` `data` is dropped by the stringification. */
  function LegacyUserEntries(tpl: JVal, guidance: JVal, data: Option<JVal>, meta: JVal): seq<(string, JVal)> {
    if data.Some? then
      [("task", JStr(LegacyTask)), ("templateGuidance", tpl), ("sectionGuidance", guidance),
       ("inputData", data.value), ("outputMustMatch", LegacyOutputSchema), ("meta", meta)]
    else
      [("task", JStr(LegacyTask)), ("templateGuidance", tpl), ("sectionGuidance", guidance),
       ("outputMustMatch", LegacyOutputSchema), ("meta", meta)]
  }

  const LegacyUserKeys: seq<string> := ["task", "templateGuidance", "sectionGuidance", "inputData", "outputMustMatch", "meta"]
  const LegacyUserKeysNoData: seq<string> := ["task", "templateGuidance", "sectionGuidance", "outputMustMatch", "meta"]

  lemma LegacyUserKeysDistinct()
    ensures forall i, j :: 0 <= i < j < |LegacyUserKeys| ==> LegacyUserKeys[i] != LegacyUserKeys[j]
    ensures forall i, j :: 0 <= i < j < |LegacyUserKeysNoData| ==> LegacyUserKeysNoData[i] != LegacyUserKeysNoData[j]
    ensures "inputData" !in LegacyUserKeysNoData
  {
  }

  lemma LegacyUserLookupData(es: seq<(string, JVal)>)
    requires |es| == 6 && forall i :: 0 <= i < 6 ==> es[i].0 == LegacyUserKeys[i]
    ensures Lookup(es, "sectionGuidance") == Some(es[2].1)
    ensures Lookup(es, "inputData") == Some(es[3].1)
    ensures Lookup(es, "meta") == Some(es[5].1)
  {
    LegacyUserKeysDistinct();
    LookupAt(es, 2);
    LookupAt(es, 3);
    LookupAt(es, 5);
  }

  lemma LegacyUserLookupNoData(es: seq<(string, JVal)>)
    requires |es| == 5 && forall i :: 0 <= i < 5 ==> es[i].0 == LegacyUserKeysNoData[i]
    ensures Lookup(es, "sectionGuidance") == Some(es[2].1)
    ensures Lookup(es, "inputData") == None
    ensures Lookup(es, "meta") == Some(es[4].1)
  {
    LegacyUserKeysDistinct();
    assert Keys(es) == LegacyUserKeysNoData;
    LookupAt(es, 2);
    LookupAt(es, 4);
  }

  lemma LegacyUserLookup(tpl: JVal, guidance: JVal, data: Option<JVal>, meta: JVal)
    ensures Lookup(LegacyUserEntries(tpl, guidance, data, meta), "inputData") == data
    ensures Lookup(LegacyUserEntries(tpl, guidance, data, meta), "sectionGuidance") == Some(guidance)
    ensures Lookup(LegacyUserEntries(tpl, guidance, data, meta), "meta") == Some(meta)
  {
    var es := LegacyUserEntries(tpl, guidance, data, meta);
    if data.Some? {
      LegacyUserLookupData(es);
    } else {
      LegacyUserLookupNoData(es);
    }
  }

  /** The object the older prompt stringifies as its user message. */
  function LegacyUser(tpl: JVal, guidance: JVal, data: Option<JVal>, meta: JVal): (u: JVal)
    ensures Get(u, "inputData") == data
    ensures Get(u, "sectionGuidance") == Some(guidance)
    ensures Get(u, "meta") == Some(meta)
  {
    LegacyUserLookup(tpl, guidance, data, meta);
    JObj(LegacyUserEntries(tpl, guidance, data, meta))
  }

  /** The older `buildPrompt(data, {templateVersion, promptVersion})`: it
      always loads `cobranca_v1.json`, echoes the versions it was given
      (absent ones stay absent) and sends `data` unsanitised. */
  function LegacyBuildPrompt(c: Coercion, data: Option<JVal>, templateVersion: Option<JVal>,
                             promptVersion: Option<JVal>, load: TemplateLoader): (r: Result<Prompt, Thrown>)
    ensures load(LegacyTemplateFile).Failure? ==>
              r == Failure(TemplateError(ToStrOpt(c, templateVersion), load(LegacyTemplateFile).error))
    ensures load(LegacyTemplateFile).Success? && load(LegacyTemplateFile).value.JNull? ==>
              r == Failure(Thrown(NullTemplateMessage, 0))
    ensures load(LegacyTemplateFile).Success? && !load(LegacyTemplateFile).value.JNull? ==>
              (r == Failure(Thrown(NullEntryMessage, 0)) <==>
               exists i :: 0 <= i < |LegacySource(load(LegacyTemplateFile).value)| &&
                           LegacySource(load(LegacyTemplateFile).value)[i].1.JNull?)
    ensures r.Success? ==> r.value.system == LegacyRules
    ensures r.Success? ==> r.value.meta == JObj(LegacyMetaEntries(promptVersion, templateVersion))
    ensures r.Success? ==> Get(r.value.user, "meta") == Some(r.value.meta)
    ensures r.Success? ==> Get(r.value.user, "inputData") == data
    ensures r.Success? ==> Get(r.value.user, "sectionGuidance") == LegacyGuidance(load(LegacyTemplateFile).value)
  {
    match load(LegacyTemplateFile)
    case Failure(msg) => Failure(TemplateError(ToStrOpt(c, templateVersion), msg))
    case Success(tpl) =>
      if tpl.JNull? then Failure(Thrown(NullTemplateMessage, 0))
      else
        LegacyGuidanceNull(tpl);
        match LegacyGuidance(tpl)
        case None => Failure(Thrown(NullEntryMessage, 0))
        case Some(g) =>
          var meta := JObj(LegacyMetaEntries(promptVersion, templateVersion));
          Success(Prompt(LegacyRules, LegacyUser(tpl, g, data, meta), meta))
  }

  const LegacyTemplateFile: string := "cobranca_v1.json"

  /** What reading a setting of a null guidance entry throws. */
  const NullEntryMessage: string := "Cannot read properties of null (reading 'minParagraphs')"

  /** The `meta` entries of the older prompt: a version that is `undefined`
      is dropped when the object is stringified. */
  function LegacyMetaEntries(promptVersion: Option<JVal>, templateVersion: Option<JVal>): seq<(string, JVal)> {
    (if promptVersion.Some? then [("promptVersion", promptVersion.value)] else []) +
    (if templateVersion.Some? then [("templateVersion", templateVersion.value)] else [])
  }

  /** The output shape the older prompt spells out for the model. */
  const LegacyOutputSchema: JVal :=
    JObj([("sections", SectionsToJson(Sections("string", "string", "string", "string", "string", "string", "string"))),
          ("alerts", JArr([JObj([("level", JStr("info|warn|error")), ("code", JStr("string")), ("message", JStr("string"))])])),
          ("meta", JObj([("promptVersion", JStr("string")), ("templateVersion", JStr("string"))]))])

  /** Whatever version is asked for, the older builder produces the same
      guidance: it reads one fixed template. */
  lemma LegacyIgnoresVersion(c: Coercion, data: Option<JVal>, tv1: Option<JVal>, tv2: Option<JVal>,
                             pv: Option<JVal>, load: TemplateLoader)
    requires LegacyBuildPrompt(c, data, tv1, pv, load).Success?
    ensures LegacyBuildPrompt(c, data, tv2, pv, load).Success?
    ensures Get(LegacyBuildPrompt(c, data, tv1, pv, load).value.user, "sectionGuidance") ==
            Get(LegacyBuildPrompt(c, data, tv2, pv, load).value.user, "sectionGuidance")
  {
  }
}
