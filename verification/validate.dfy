/** Deterministic legal validation of the drafting input: required fields
    by dotted path, the closed category/subtype table for the debt's origin,
    and a fixed sequence of alert rules. Only `missing` blocks drafting;
    alerts are advice. */
module Validate {
  import opened Wrappers
  import opened Text
  import opened Json
  import opened Draft
  import opened Schema

  /** `{ ok, missing, alerts, meta }` */
  datatype Validation = Validation(ok: bool, missing: seq<MissingField>, alerts: seq<Alert>, meta: JVal)

  // ---------------------------------------------------------------------------
  // Origin of the debt
  // ---------------------------------------------------------------------------

  /** `ORIGEM_POR_CATEGORIA`: the nine categories and their subtypes. */
  const OrigemPorCategoria: map<string, seq<string>> := map[
    "CONTRATO" := [
      "CONTRATO_COMPRA_VENDA", "CONTRATO_PRESTACAO_SERVICOS", "CONTRATO_EMPREITADA",
      "CONTRATO_LOCACAO", "CONTRATO_MUTUO", "FORNECIMENTO_PRODUTOS",
      "LICENCIAMENTO_SOFTWARE_SAAS", "CONTRATO_MANDATO", "CONTRATO_SOCIEDADE", "CONTRATO_ATIPICO"],
    "TITULO_PRESCRITO" := ["CHEQUE_PRESCRITO", "NOTA_PROMISSORIA_PRESCRITA", "DUPLICATA_PRESCRITA"],
    "ENRIQUECIMENTO_SEM_CAUSA" := ["PAGAMENTO_INDEVIDO", "RETENCAO_INDEVIDA", "GESTAO_NEGOCIOS"],
    "ACORDO" := ["ACORDO_EXTRAJUDICIAL"],
    "INDENIZACAO" := ["INDENIZACAO_CONTRATUAL", "INDENIZACAO_EXTRACONTRATUAL"],
    "CONVERSAO" := ["CONVERSAO_PERDAS_DANOS"],
    "CONDOMINIO" := ["COTAS_CONDOMINIAIS"],
    "CONSUMO" := ["SERVICOS_ESSENCIAIS", "MENSALIDADES"],
    "HONORARIOS" := ["HONORARIOS_CONTRATUAIS"]
  ]

  /** `isValidOrigemCategoria(cat)`: a non-empty own key of the table. */
  predicate IsValidOrigemCategoria(cat: string) {
    cat != [] && cat in OrigemPorCategoria
  }

  /** `isValidOrigemSubtipo(cat, sub)`: a valid category listing `sub`. */
  predicate IsValidOrigemSubtipo(cat: string, sub: string) {
    IsValidOrigemCategoria(cat) && sub != [] && sub in OrigemPorCategoria[cat]
  }

  // ---------------------------------------------------------------------------
  // Emptiness and required fields
  // ---------------------------------------------------------------------------

  /** `isEmpty(v)`: undefined, null, a blank string or an empty array.
      `0` and `false` are present values. */
  predicate IsEmpty(o: Option<JVal>) {
    match o
    case None => true
    case Some(JNull) => true
    case Some(JStr(t)) => IsBlank(t)
    case Some(JArr(items)) => items == []
    case Some(_) => false
  }

  function MissingOf(d: Descriptor): MissingField {
    MissingField(d.path, d.title)
  }

  /** The loop over `required`: one `{path, label}` per descriptor whose value
      is empty, in descriptor order. */
  function MissingRequired(data: JVal, required: seq<Descriptor>): (r: seq<MissingField>)
    ensures |r| <= |required|
    decreases |required|
  {
    if |required| == 0 then []
    else
      var rest := MissingRequired(data, required[1..]);
      if IsEmpty(Path(data, required[0].path)) then [MissingOf(required[0])] + rest else rest
  }

  /** An entry is reported exactly for the descriptors whose value is empty. */
  lemma {:induction false} MissingRequiredMembers(data: JVal, required: seq<Descriptor>)
    ensures forall m :: m in MissingRequired(data, required) ==>
      exists d :: d in required && m == MissingOf(d) && IsEmpty(Path(data, d.path))
    ensures forall d :: d in required && IsEmpty(Path(data, d.path)) ==> MissingOf(d) in MissingRequired(data, required)
    decreases |required|
  {
    if |required| > 0 {
      MissingRequiredMembers(data, required[1..]);
      assert forall d :: d in required[1..] ==> d in required;
      assert forall d :: d in required ==> d == required[0] || d in required[1..];
    }
  }

  /** The required-field scan distributes over concatenated descriptor lists,
      so entries come out in schema order. */
  lemma {:induction false} MissingRequiredConcat(data: JVal, a: seq<Descriptor>, b: seq<Descriptor>)
    ensures MissingRequired(data, a + b) == MissingRequired(data, a) + MissingRequired(data, b)
    decreases |a|
  {
    if |a| > 0 {
      assert (a + b)[0] == a[0];
      assert (a + b)[1..] == a[1..] + b;
      MissingRequiredConcat(data, a[1..], b);
    } else {
      assert a + b == b;
    }
  }

  /** When exactly one descriptor's value is empty, it alone is reported. */
  lemma {:induction false} MissingRequiredSingle(data: JVal, required: seq<Descriptor>, k: nat)
    requires k < |required|
    requires IsEmpty(Path(data, required[k].path))
    requires forall i :: 0 <= i < |required| && i != k ==> !IsEmpty(Path(data, required[i].path))
    ensures MissingRequired(data, required) == [MissingOf(required[k])]
    decreases |required|
  {
    if k == 0 {
      MissingRequiredNone(data, required[1..]);
    } else {
      assert !IsEmpty(Path(data, required[0].path));
      MissingRequiredSingle(data, required[1..], k - 1);
    }
  }

  /** No empty value, no entry. */
  lemma {:induction false} MissingRequiredNone(data: JVal, required: seq<Descriptor>)
    requires forall i :: 0 <= i < |required| ==> !IsEmpty(Path(data, required[i].path))
    ensures MissingRequired(data, required) == []
    decreases |required|
  {
    if |required| > 0 {
      assert !IsEmpty(Path(data, required[0].path));
      MissingRequiredNone(data, required[1..]);
    }
  }

  // ---------------------------------------------------------------------------
  // Alert rules
  // ---------------------------------------------------------------------------

  /** `/whats|email|carta|cart[oó]rio|notifica|extrajud/i.test(desc)` */
  predicate MentionsExtrajudicial(desc: string) {
    || ContainsCi(desc, "whats") || ContainsCi(desc, "email") || ContainsCi(desc, "carta")
    || ContainsCi(desc, "cartorio") || ContainsCi(desc, "cartório")
    || ContainsCi(desc, "notifica") || ContainsCi(desc, "extrajud")
  }

  /** The values the alert rules read from `data`. */
  datatype Facts = Facts(
    categoria: string,          // String(divida.origem_categoria || "").trim()
    subtipo: string,            // String(divida.origem_subtipo || "").trim()
    reuEndereco: string,        // String(partes.reu.endereco || "")
    tentou: bool,               // !!fatos.tentativa_extrajudicial
    descricao: string,          // String(fatos.descricao_orientada || "")
    documentos: Option<JVal>,   // provas.documentos
    valor: Option<real>,        // Number(divida.valor), None when not finite
    vencimento: string,         // String(divida.data_vencimento || "")
    valorCausa: Option<real>)   // Number(config.valor_causa), None when not finite

  /** Reads the facts along their dotted paths. */
  function ReadFacts(c: Coercion, data: JVal): (f: Facts)
    ensures IsTrimmed(f.categoria) && IsTrimmed(f.subtipo)
  {
    var cat := StrOr(c, At(data, ["divida", "origem_categoria"]));
    var sub := StrOr(c, At(data, ["divida", "origem_subtipo"]));
    TrimIsTrimmed(cat);
    TrimIsTrimmed(sub);
    Facts(
      Trim(cat),
      Trim(sub),
      StrOr(c, At(data, ["partes", "reu", "endereco"])),
      Present(At(data, ["fatos", "tentativa_extrajudicial"])),
      StrOr(c, At(data, ["fatos", "descricao_orientada"])),
      At(data, ["provas", "documentos"]),
      ToNumber(c, At(data, ["divida", "valor"])),
      StrOr(c, At(data, ["divida", "data_vencimento"])),
      ToNumber(c, At(data, ["config", "valor_causa"])))
  }

  const OrigemInconsistente := Alert(LevelError, "ORIGEM_INCONSISTENTE",
    "Origem da dívida inconsistente: subtipo informado sem categoria.")
  const OrigemCategoriaInvalida := Alert(LevelError, "ORIGEM_CATEGORIA_INVALIDA",
    "Origem da dívida - Categoria inválida. Selecione uma categoria permitida no formulário.")
  const OrigemSubtipoInvalido := Alert(LevelError, "ORIGEM_SUBTIPO_INVALIDO",
    "Origem da dívida - Subtipo inválido para a categoria selecionada.")
  const ReuEnderecoFraco := Alert(LevelWarn, "REU_ENDERECO_FRACO",
    "Endereço do réu parece incompleto para fins de citação.")
  const ExtrajNaoDescrita := Alert(LevelInfo, "EXTRAJ_NAO_DESCRITA",
    "Tentativa extrajudicial marcada, mas o texto não descreve como ocorreu.")
  const SemDocumentos := Alert(LevelWarn, "SEM_DOCUMENTOS",
    "Nenhum documento fornecido; risco processual elevado.")
  const ValorInvalido := Alert(LevelError, "VALOR_INVALIDO",
    "O valor da dívida é inválido.")
  const DataFormato := Alert(LevelWarn, "DATA_FORMATO",
    "Data de vencimento deve seguir o formato YYYY-MM-DD.")
  const ValorCausaMenor := Alert(LevelWarn, "VALOR_CAUSA_MENOR_QUE_DIVIDA",
    "O valor da causa é inferior ao valor da dívida informada; verificar antes do protocolo.")

  const SubtipoMissing := MissingField("divida.origem_subtipo", "Origem da dívida - Subtipo")
  const CategoriaMissing := MissingField("divida.origem_categoria", "Origem da dívida - Categoria")

  /** What the origin pair adds to `missing`: the absent half when only one
      half is given, nothing otherwise. */
  function OrigemMissing(cat: string, sub: string): (ms: seq<MissingField>)
    ensures cat != [] && sub == [] ==> ms == [SubtipoMissing]
    ensures cat == [] && sub != [] ==> ms == [CategoriaMissing]
    ensures (cat == []) == (sub == []) ==> ms == []
  {
    (if cat != [] && sub == [] then [SubtipoMissing] else [])
    + (if cat == [] && sub != [] then [CategoriaMissing] else [])
  }

  /** The nine rule alerts, in evaluation order. */
  const RuleAlerts: seq<Alert> := [
    OrigemInconsistente, OrigemCategoriaInvalida, OrigemSubtipoInvalido, ReuEnderecoFraco,
    ExtrajNaoDescrita, SemDocumentos, ValorInvalido, DataFormato, ValorCausaMenor]

  /** Whether each of the nine rules fires, in rule order. */
  function Conditions(f: Facts): (fires: seq<bool>)
    ensures |fires| == |RuleAlerts|
  {
    var cat := f.categoria;
    var sub := f.subtipo;
    [ cat == [] && sub != [],
      cat != [] && !IsValidOrigemCategoria(cat),
      cat != [] && sub != [] && IsValidOrigemCategoria(cat) && !IsValidOrigemSubtipo(cat, sub),
      f.reuEndereco != [] && |f.reuEndereco| < 12,
      f.tentou && !MentionsExtrajudicial(f.descricao),
      !(f.documentos.Some? && f.documentos.value.JArr? && f.documentos.value.items != []),
      f.valor.None? || f.valor.value <= 0.0,
      f.vencimento != [] && !IsIsoDate(f.vencimento),
      f.valor.Some? && f.valorCausa.Some? && f.valorCausa.value < f.valor.value ]
  }

  /** The alerts whose rule fires, in rule order. */
  function Fire(fires: seq<bool>, alerts: seq<Alert>): (r: seq<Alert>)
    requires |fires| == |alerts|
    ensures |r| <= |alerts|
    ensures forall a :: a in r ==> a in alerts
    decreases |alerts|
  {
    if |alerts| == 0 then []
    else (if fires[0] then [alerts[0]] else []) + Fire(fires[1..], alerts[1..])
  }

  predicate DistinctCodes(alerts: seq<Alert>) {
    forall i, j :: 0 <= i < j < |alerts| ==> alerts[i].code != alerts[j].code
  }

  lemma RuleAlertsDistinct()
    ensures DistinctCodes(RuleAlerts)
  {
  }

  /** With distinct codes, a rule's code appears exactly once if the rule
      fires and not at all otherwise. */
  lemma {:induction false} FireCount(fires: seq<bool>, alerts: seq<Alert>, k: nat)
    requires |fires| == |alerts| && DistinctCodes(alerts) && k < |alerts|
    ensures CountCode(Fire(fires, alerts), alerts[k].code) == if fires[k] then 1 else 0
    decreases |alerts|
  {
    var code := alerts[k].code;
    var head := if fires[0] then [alerts[0]] else [];
    assert Fire(fires, alerts) == head + Fire(fires[1..], alerts[1..]);
    CountCodeConcat(head, Fire(fires[1..], alerts[1..]), code);
    if k == 0 {
      FireAbsent(fires[1..], alerts[1..], code);
    } else {
      assert alerts[0].code != code;
      FireCount(fires[1..], alerts[1..], k - 1);
    }
  }

  /** A code no rule carries never appears. */
  lemma {:induction false} FireAbsent(fires: seq<bool>, alerts: seq<Alert>, code: string)
    requires |fires| == |alerts|
    requires forall i :: 0 <= i < |alerts| ==> alerts[i].code != code
    ensures CountCode(Fire(fires, alerts), code) == 0
    decreases |alerts|
  {
    if |alerts| > 0 {
      var head := if fires[0] then [alerts[0]] else [];
      assert Fire(fires, alerts) == head + Fire(fires[1..], alerts[1..]);
      CountCodeConcat(head, Fire(fires[1..], alerts[1..]), code);
      FireAbsent(fires[1..], alerts[1..], code);
    }
  }

  // ---------------------------------------------------------------------------
  // The validator
  // ---------------------------------------------------------------------------

  /** The validator once the facts are read and the required fields
      scanned: `base` is the required-field part of `missing`. */
  function Check(f: Facts, base: seq<MissingField>, meta: JVal): (r: Validation)
    ensures r.ok <==> r.missing == []
    ensures r.meta == meta
    ensures r.missing == base + OrigemMissing(f.categoria, f.subtipo)
    ensures forall a :: a in r.alerts ==> a in RuleAlerts
  {
    var missing := base + OrigemMissing(f.categoria, f.subtipo);
    Validation(missing == [], missing, Fire(Conditions(f), RuleAlerts), meta)
  }

  /** `validateDraftInput(data, schema, meta)` with `schema.requiredCritical`
      already extracted (`[]` when the schema has none). */
  function ValidateDraftInput(c: Coercion, data: JVal, required: seq<Descriptor>, meta: JVal): (r: Validation)
    ensures r.ok <==> r.missing == []
    ensures r.meta == meta
    ensures r.missing == MissingRequired(data, required) + OrigemMissing(ReadFacts(c, data).categoria, ReadFacts(c, data).subtipo)
  {
    Check(ReadFacts(c, data), MissingRequired(data, required), meta)
  }

  /** Each rule raises its alert exactly once when its condition holds and
      never otherwise. */
  lemma RuleCount(f: Facts, base: seq<MissingField>, meta: JVal, k: nat)
    requires k < |RuleAlerts|
    ensures CountCode(Check(f, base, meta).alerts, RuleAlerts[k].code) == if Conditions(f)[k] then 1 else 0
  {
    RuleAlertsDistinct();
    FireCount(Conditions(f), RuleAlerts, k);
  }

  /** Drafting is blocked exactly when a required value is empty or exactly
      one of category and subtype is given: no alert rule, and no verdict of
      the origin table, can block it. */
  lemma ValidateOk(c: Coercion, data: JVal, required: seq<Descriptor>, meta: JVal)
    ensures var f := ReadFacts(c, data);
      ValidateDraftInput(c, data, required, meta).ok <==>
        MissingRequired(data, required) == [] && (f.categoria == [] <==> f.subtipo == [])
  {
  }

  /** Without a schema, as the HTTP handlers call it, only the origin pair
      can produce missing entries. */
  lemma ValidateWithoutSchema(c: Coercion, data: JVal, meta: JVal)
    ensures var r := ValidateDraftInput(c, data, [], meta);
      var f := ReadFacts(c, data);
      && (r.missing == [] || r.missing == [SubtipoMissing] || r.missing == [CategoriaMissing])
      && (r.ok <==> (f.categoria == [] <==> f.subtipo == []))
  {
  }

  /** A subtype without category adds one `ORIGEM_INCONSISTENTE`; when both
      or neither are given, only the required fields can be missing. */
  lemma OrigemPairRule(f: Facts, base: seq<MissingField>, meta: JVal)
    ensures var r := Check(f, base, meta);
      && ((f.categoria == []) == (f.subtipo == []) ==> r.missing == base)
      && CountCode(r.alerts, "ORIGEM_INCONSISTENTE") == (if f.categoria == [] && f.subtipo != [] then 1 else 0)
  {
    assert base + [] == base;
    RuleCount(f, base, meta, 0);
  }

  /** A present category outside the table is flagged once. */
  lemma CategoriaRule(f: Facts, base: seq<MissingField>, meta: JVal)
    ensures CountCode(Check(f, base, meta).alerts, "ORIGEM_CATEGORIA_INVALIDA")
      == (if f.categoria != [] && f.categoria !in OrigemPorCategoria then 1 else 0)
  {
    RuleCount(f, base, meta, 1);
  }

  /** A subtype is judged only against a valid category, and flagged once
      when that category does not list it. */
  lemma SubtipoRule(f: Facts, base: seq<MissingField>, meta: JVal)
    ensures var cat := f.categoria;
      CountCode(Check(f, base, meta).alerts, "ORIGEM_SUBTIPO_INVALIDO")
        == (if cat in OrigemPorCategoria && f.subtipo != [] && f.subtipo !in OrigemPorCategoria[cat] then 1 else 0)
  {
    var cat, sub := f.categoria, f.subtipo;
    RuleCount(f, base, meta, 2);
    assert RuleAlerts[2].code == "ORIGEM_SUBTIPO_INVALIDO";
    assert Conditions(f)[2] <==> cat in OrigemPorCategoria && sub != [] && sub !in OrigemPorCategoria[cat] by {
      EmptyNoCategory();
    }
  }

  /** The empty text names no category. */
  lemma EmptyNoCategory()
    ensures [] !in OrigemPorCategoria
  {
  }

  /** A non-empty defendant address under 12 characters draws one warning;
      an empty one draws none. */
  lemma ReuEnderecoRule(f: Facts, base: seq<MissingField>, meta: JVal)
    ensures CountCode(Check(f, base, meta).alerts, "REU_ENDERECO_FRACO")
      == (if f.reuEndereco != [] && |f.reuEndereco| < 12 then 1 else 0)
  {
    RuleCount(f, base, meta, 3);
  }

  /** A marked extra-judicial attempt whose description names no channel
      draws one info; an unmarked attempt draws none. */
  lemma ExtrajRule(f: Facts, base: seq<MissingField>, meta: JVal)
    ensures CountCode(Check(f, base, meta).alerts, "EXTRAJ_NAO_DESCRITA")
      == (if f.tentou && !MentionsExtrajudicial(f.descricao) then 1 else 0)
  {
    RuleCount(f, base, meta, 4);
  }

  /** No documents, or something other than a non-empty array, draws one
      warning. */
  lemma DocumentosRule(f: Facts, base: seq<MissingField>, meta: JVal)
    ensures var docs := f.documentos;
      CountCode(Check(f, base, meta).alerts, "SEM_DOCUMENTOS")
        == (if docs.Some? && docs.value.JArr? && docs.value.items != [] then 0 else 1)
  {
    RuleCount(f, base, meta, 5);
  }

  /** A non-finite or non-positive debt is one error alert, and not a
      missing entry. */
  lemma ValorRule(f: Facts, base: seq<MissingField>, meta: JVal)
    ensures CountCode(Check(f, base, meta).alerts, "VALOR_INVALIDO")
      == (if f.valor.None? || f.valor.value <= 0.0 then 1 else 0)
    ensures Check(f, base, meta).missing == Check(f.(valor := Some(1.0)), base, meta).missing
  {
    RuleCount(f, base, meta, 6);
  }

  /** A non-empty due date outside `YYYY-MM-DD` draws one warning. */
  lemma DataFormatoRule(f: Facts, base: seq<MissingField>, meta: JVal)
    ensures CountCode(Check(f, base, meta).alerts, "DATA_FORMATO")
      == (if f.vencimento != [] && !IsIsoDate(f.vencimento) then 1 else 0)
  {
    RuleCount(f, base, meta, 7);
  }

  /** A finite claim value below a finite debt draws one warning. */
  lemma ValorCausaRule(f: Facts, base: seq<MissingField>, meta: JVal)
    ensures CountCode(Check(f, base, meta).alerts, "VALOR_CAUSA_MENOR_QUE_DIVIDA")
      == (if f.valor.Some? && f.valorCausa.Some? && f.valorCausa.value < f.valor.value then 1 else 0)
  {
    RuleCount(f, base, meta, 8);
  }

  // ---------------------------------------------------------------------------
  // The validator against the canonical schema
  // ---------------------------------------------------------------------------

  // The lemmas below speak of `Check(f, MissingRequired(data, required), meta)`
  // for any facts `f`; `ValidateDraftInput` is that call with the facts read
  // from `data`.

  /** A descriptor whose value is not empty is never reported, whatever its
      type annotation demands. */
  lemma PresentNotMissing(data: JVal, required: seq<Descriptor>, f: Facts, meta: JVal, d: Descriptor)
    requires !IsEmpty(Path(data, d.path))
    requires d.path != SubtipoMissing.path && d.path != CategoriaMissing.path
    ensures MissingOf(d) !in Check(f, MissingRequired(data, required), meta).missing
  {
    MissingRequiredMembers(data, required);
    if MissingOf(d) in MissingRequired(data, required) {
      assert false;
    }
    assert MissingOf(d) !in OrigemMissing(f.categoria, f.subtipo);
  }

  /** Only emptiness is checked: the type annotations (minimum lengths,
      numeric minimums, date formats) never change what is reported. */
  lemma {:induction false} KindsIgnored(data: JVal, ds: seq<Descriptor>, es: seq<Descriptor>)
    requires |ds| == |es|
    requires forall i :: 0 <= i < |ds| ==> ds[i].path == es[i].path && ds[i].title == es[i].title
    ensures MissingRequired(data, ds) == MissingRequired(data, es)
    decreases |ds|
  {
    if |ds| > 0 {
      assert MissingOf(ds[0]) == MissingOf(es[0]);
      KindsIgnored(data, ds[1..], es[1..]);
    }
  }

  /** With a single blank required field and no origin pair given, the
      missing list is exactly that one field. */
  lemma SingleBlankReported(data: JVal, required: seq<Descriptor>, k: nat, f: Facts, meta: JVal)
    requires k < |required|
    requires IsEmpty(Path(data, required[k].path))
    requires forall i :: 0 <= i < |required| && i != k ==> !IsEmpty(Path(data, required[i].path))
    requires f.categoria == [] && f.subtipo == []
    ensures Check(f, MissingRequired(data, required), meta).missing
      == [MissingField(required[k].path, required[k].title)]
  {
    MissingRequiredSingle(data, required, k);
  }

  /** The origin text is required on its own: when it is empty it is
      reported whatever the category and subtype say. */
  lemma OrigemTextRequired(data: JVal, f: Facts, meta: JVal)
    requires IsEmpty(Path(data, RequiredCritical[6].path))
    ensures MissingField("divida.origem", "Origem da dívida") in Check(f, MissingRequired(data, RequiredCritical), meta).missing
  {
    var d := RequiredCritical[6];
    assert d in RequiredCritical;
    MissingRequiredMembers(data, RequiredCritical);
    assert MissingOf(d) in MissingRequired(data, RequiredCritical);
    assert d.path == "divida.origem" && d.title == "Origem da dívida";
  }
}
