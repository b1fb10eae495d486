/** The template-based DOCX endpoint of the draft flow: its own bearer
    check, the critical-field validation that answers 422 with alerts
    grouped by level, the placeholder values it fills into the Word
    template, and the handler that strings them together. Reading the
    template file and producing the DOCX binary are parameters. */
module DocxDraft {
  import opened Wrappers
  import opened Text
  import opened Json
  import opened Draft
  import Auth

  // ---------------------------------------------------------------------------
  // Small helpers
  // ---------------------------------------------------------------------------

  /** `hasText(s)`: a string with something besides whitespace. */
  predicate HasText(o: Option<JVal>) {
    o.Some? && o.value.JStr? && !IsBlank(o.value.str)
  }

  /** `formatDateBR(ymd)`: an ISO `YYYY-MM-DD` date as `DD/MM/YYYY`, or
      nothing when the text is not in that form. */
  function FormatDateBR(c: Coercion, ymd: Option<JVal>): (r: string)
    ensures r == [] <==> !IsIsoDate(StrOr(c, ymd))
  {
    var s := StrOr(c, ymd);
    if !IsIsoDate(s) then ""
    else
      SplitIsoDate(s);
      var parts := Split(s, '-');
      parts[2] + "/" + parts[1] + "/" + parts[0]
  }

  /** Splitting an ISO date on `-` gives year, month and day. */
  lemma SplitIsoDate(s: string)
    requires IsIsoDate(s)
    ensures Split(s, '-') == [s[..4], s[5..7], s[8..]]
  {
    var parts := [s[..4], s[5..7], s[8..]];
    assert parts[1..][1..] == [s[8..]];
    assert Join(parts[1..], ['-']) == s[5..7] + ['-'] + s[8..];
    assert Join(parts, ['-']) == s[..4] + ['-'] + (s[5..7] + ['-'] + s[8..]);
    assert s == s[..4] + ['-'] + (s[5..7] + ['-'] + s[8..]);
    forall i | 0 <= i < |parts| ensures '-' !in parts[i] {
      assert forall j :: 0 <= j < |parts[i]| ==> IsDigit(parts[i][j]);
    }
    SplitJoin(parts, '-');
  }

  /** The Brazilian form reads back to the ISO date: day, month and year
      trade places and nothing else changes. */
  lemma FormatDateBRRoundTrip(c: Coercion, s: string)
    requires IsIsoDate(s)
    ensures var r := FormatDateBR(c, Some(JStr(s)));
            |r| == 10 && r[2] == '/' && r[5] == '/' && r[6..] + "-" + r[3..5] + "-" + r[..2] == s
  {
    var y, m, d := s[..4], s[5..7], s[8..];
    assert FormatDateBR(c, Some(JStr(s))) == d + "/" + m + "/" + y by {
      SplitIsoDate(s);
    }
    DateSwap(y, m, d);
    IsoParts(s);
  }

  /** An ISO date is its three fields joined by `-`. */
  lemma IsoParts(s: string)
    requires IsIsoDate(s)
    ensures s[..4] + "-" + s[5..7] + "-" + s[8..] == s
  {
  }

  /** `DD/MM/YYYY` puts its three fields back in ISO order. */
  lemma DateSwap(y: string, m: string, d: string)
    requires |y| == 4 && |m| == 2 && |d| == 2
    ensures var r := d + "/" + m + "/" + y;
            |r| == 10 && r[2] == '/' && r[5] == '/' && r[6..] + "-" + r[3..5] + "-" + r[..2] == y + "-" + m + "-" + d
  {
    var r := d + "/" + m + "/" + y;
    assert r[6..] == y && r[3..5] == m && r[..2] == d;
  }

  // ---------------------------------------------------------------------------
  // Bearer token of this endpoint
  // ---------------------------------------------------------------------------

  const NoSecretMessage := "Servidor sem VALIDALEX_SHARED_TOKEN configurado"
  const UnauthorizedMessage := "Não autorizado"

  /** The capture group of `/^Bearer\s+(.+)$/i`: the scheme in any case,
      at least one whitespace character, then a non-empty rest without line
      terminators, the whitespace run being as long as it can be. */
  function BearerCapture(h: string): (m: Option<string>)
    ensures m.Some? ==> m.value != [] && forall i :: 0 <= i < |m.value| ==> !IsLineTerminator(m.value[i])
  {
    if |h| < 8 || Lower(h[..6]) != "bearer" || !IsWs(h[6]) then None
    else
      var rest := h[6..];
      var run := |rest| - |TrimStart(rest)|;
      var k := if run < |rest| then run else |rest| - 1;
      var t := rest[k..];
      if exists i :: 0 <= i < |t| && IsLineTerminator(t[i]) then None else Some(t)
  }

  /** `getBearerToken(req)` */
  function GetBearerToken(c: Coercion, headers: seq<(string, JVal)>): (t: string)
    ensures IsTrimmed(t)
    ensures BearerCapture(ToStr(c, Auth.HeaderOr(headers, "authorization", "Authorization"))).None? ==> t == []
  {
    match BearerCapture(ToStr(c, Auth.HeaderOr(headers, "authorization", "Authorization")))
    case None => ""
    case Some(m) =>
      TrimIsTrimmed(m);
      Trim(m)
  }

  /** `authOr401(req, res)`: `None` lets the request through; a failed
      check answers 500 when no secret is configured and 401 otherwise. */
  function AuthOr401(c: Coercion, secret: Option<string>, headers: seq<(string, JVal)>): (r: Option<(int, string)>)
    ensures r.None? <==> Auth.Configured(secret) && GetBearerToken(c, headers) == secret.value
    ensures r.Some? ==> r.value == (if Auth.Configured(secret) then (401, UnauthorizedMessage) else (500, NoSecretMessage))
  {
    if !Auth.Configured(secret) then Some((500, NoSecretMessage))
    else
      var got := GetBearerToken(c, headers);
      if got == [] || got != secret.value then Some((401, UnauthorizedMessage)) else None
  }

  /** The capture of `Bearer<whitespace><token>` is the token, whatever the
      scheme's case and however long the whitespace run. */
  lemma CaptureBearer(scheme: string, sep: string, tok: string)
    requires Lower(scheme) == "bearer" && sep != [] && AllWs(sep)
    requires tok != [] && !IsWs(tok[0]) && forall i :: 0 <= i < |tok| ==> !IsLineTerminator(tok[i])
    ensures BearerCapture(scheme + sep + tok) == Some(tok)
  {
    var h := scheme + sep + tok;
    assert |scheme| == 6;
    assert h[..6] == scheme;
    assert h[6] == sep[0];
    var rest := h[6..];
    assert rest == sep + tok;
    TrimStartPadded(sep, tok);
    assert rest[|sep|..] == tok;
  }

  /** `Bearer`, whitespace, the secret: accepted, whatever the scheme's case
      and whatever whitespace separates it from the secret. */
  lemma BearerRoundTrip(c: Coercion, scheme: string, sep: string, tok: string)
    requires Lower(scheme) == "bearer" && sep != [] && AllWs(sep)
    requires tok != [] && IsTrimmed(tok) && forall i :: 0 <= i < |tok| ==> !IsLineTerminator(tok[i])
    ensures GetBearerToken(c, [("authorization", JStr(scheme + sep + tok))]) == tok
  {
    var h := scheme + sep + tok;
    assert Lookup([("authorization", JStr(h))], "authorization") == Some(JStr(h));
    assert Auth.HeaderOr([("authorization", JStr(h))], "authorization", "Authorization") == JStr(h);
    CaptureBearer(scheme, sep, tok);
    TrimmedFixpoint(tok);
  }

  /** A request without an authorization header, or with one that does not
      use the Bearer scheme, is answered 401 once a secret is configured. */
  lemma NoBearerIs401(c: Coercion, secret: Option<string>, headers: seq<(string, JVal)>)
    requires Auth.Configured(secret)
    requires BearerCapture(ToStr(c, Auth.HeaderOr(headers, "authorization", "Authorization"))).None?
    ensures AuthOr401(c, secret, headers) == Some((401, UnauthorizedMessage))
  {
  }

  /** No header at all: the empty text is no bearer header. */
  lemma MissingHeaderIs401(c: Coercion, secret: Option<string>)
    requires Auth.Configured(secret)
    ensures AuthOr401(c, secret, []) == Some((401, UnauthorizedMessage))
  {
    assert Auth.HeaderOr([], "authorization", "Authorization") == JStr("");
    NoBearerIs401(c, secret, []);
  }

  /** A `Basic` header is refused, whatever its credentials. */
  lemma BasicHeaderIs401(c: Coercion, secret: Option<string>, credentials: string)
    requires Auth.Configured(secret)
    ensures AuthOr401(c, secret, [("authorization", JStr("Basic " + credentials))]) == Some((401, UnauthorizedMessage))
  {
    var h := "Basic " + credentials;
    var headers := [("authorization", JStr(h))];
    assert Lookup(headers, "authorization") == Some(JStr(h));
    assert Auth.HeaderOr(headers, "authorization", "Authorization") == JStr(h);
    if |h| >= 8 {
      assert Lower(h[..6])[0] == 'b' && Lower(h[..6])[1] == 'a';
    }
    NoBearerIs401(c, secret, headers);
  }

  /** The two guards disagree on a tab after the scheme: this endpoint
      accepts `Bearer<TAB>secret`, the shared guard does not read it as a
      bearer header. */
  lemma TabSeparatedBearer(c: Coercion, secret: string)
    requires secret != [] && IsTrimmed(secret) && forall i :: 0 <= i < |secret| ==> !IsLineTerminator(secret[i])
    ensures AuthOr401(c, Some(secret), [("authorization", JStr("Bearer\t" + secret))]).None?
    ensures !Auth.IsBearer(JStr("Bearer\t" + secret))
  {
    assert GetBearerToken(c, [("authorization", JStr("Bearer\t" + secret))]) == secret by {
      assert "Bearer\t" + secret == "Bearer" + "\t" + secret;
      LowerBearer();
      assert AllWs("\t");
      BearerRoundTrip(c, "Bearer", "\t", secret);
    }
    TabNotBearer(secret);
  }

  /** A tab after the scheme is not the space the shared guard looks for. */
  lemma TabNotBearer(t: string)
    ensures !Auth.IsBearer(JStr("Bearer\t" + t))
  {
    var l := Lower("Bearer\t" + t);
    assert l[6] == LowerChar('\t') == '\t';
    if |l| >= 7 {
      assert l[..7][6] != "bearer "[6];
    }
  }

  lemma LowerBearer()
    ensures Lower("Bearer") == "bearer"
  {
    var l := Lower("Bearer");
    assert l[0] == 'b';
  }


  // ---------------------------------------------------------------------------
  // Critical fields
  // ---------------------------------------------------------------------------

  /** The fields `validateCritical` checks; `Label()` is the text it
      reports for a failing one. */
  datatype Field =
    | AutorNome | AutorCpfCnpj | AutorEndereco
    | ReuNome | ReuCpfCnpj | ReuEndereco
    | DividaOrigem | DividaValor | DividaDataVencimento | FatosDescricao
  {
    function Label(): string {
      match this
      case AutorNome => "AUTOR_NOME"
      case AutorCpfCnpj => "AUTOR_CPF_CNPJ"
      case AutorEndereco => "AUTOR_ENDERECO"
      case ReuNome => "REU_NOME"
      case ReuCpfCnpj => "REU_CPF_CNPJ"
      case ReuEndereco => "REU_ENDERECO"
      case DividaOrigem => "DIVIDA_ORIGEM"
      case DividaValor => "DIVIDA_VALOR"
      case DividaDataVencimento => "DIVIDA_DATA_VENCIMENTO"
      case FatosDescricao => "FATOS_DESCRICAO"
    }
  }

  /** The fields in the order `validateCritical` checks them. */
  const CriticalFields: seq<Field> := [
    AutorNome, AutorCpfCnpj, AutorEndereco, ReuNome, ReuCpfCnpj, ReuEndereco,
    DividaOrigem, DividaValor, DividaDataVencimento, FatosDescricao]

  /** `(data.partes && data.partes.<who>) || {}` */
  function Party(data: JVal, who: string): JVal {
    Or(GetOpt(Get(data, "partes"), who), JObj([]))
  }

  /** `data.<key> || {}` */
  function Block(data: JVal, key: string): JVal {
    Or(Get(data, key), JObj([]))
  }

  /** `!hasText(String(v || ""))` */
  predicate Blank(c: Coercion, v: Option<JVal>) {
    IsBlank(StrOr(c, v))
  }

  /** `Number(divida.valor) > 0` */
  predicate PositiveAmount(c: Coercion, v: Option<JVal>) {
    var n := ToNumber(c, v);
    n.Some? && n.value > 0.0
  }

  /** The check `validateCritical` runs on one field fails: the text is
      blank, the amount is not a positive number, the due date is not an
      ISO date. */
  predicate Fails(c: Coercion, data: JVal, f: Field) {
    match f
    case AutorNome => Blank(c, Get(Party(data, "autor"), "nome"))
    case AutorCpfCnpj => Blank(c, Get(Party(data, "autor"), "cpf_cnpj"))
    case AutorEndereco => Blank(c, Get(Party(data, "autor"), "endereco"))
    case ReuNome => Blank(c, Get(Party(data, "reu"), "nome"))
    case ReuCpfCnpj => Blank(c, Get(Party(data, "reu"), "cpf_cnpj"))
    case ReuEndereco => Blank(c, Get(Party(data, "reu"), "endereco"))
    case DividaOrigem => Blank(c, Get(Block(data, "divida"), "origem"))
    case DividaValor => !PositiveAmount(c, Get(Block(data, "divida"), "valor"))
    case DividaDataVencimento => !IsIsoDate(StrOr(c, Get(Block(data, "divida"), "data_vencimento")))
    case FatosDescricao => Blank(c, Get(Block(data, "fatos"), "descricao_orientada"))
  }

  /** Which of the ten checks fail, in the order of `CriticalFields`. */
  function Failing(c: Coercion, data: JVal): (fails: seq<bool>)
    ensures |fails| == |CriticalFields|
  {
    seq(|CriticalFields|, i requires 0 <= i < |CriticalFields| => Fails(c, data, CriticalFields[i]))
  }

  /** The items whose flag is set, in order. */
  function Pick<T>(flags: seq<bool>, xs: seq<T>): (r: seq<T>)
    requires |flags| == |xs|
    ensures |r| <= |xs|
    decreases |xs|
  {
    if xs == [] then [] else (if flags[0] then [xs[0]] else []) + Pick(flags[1..], xs[1..])
  }

  /** `validateCritical(data)`: the failing fields, in order; a field is
      reported exactly when its own check fails. */
  function ValidateCritical(c: Coercion, data: JVal): (missing: seq<Field>)
    ensures |missing| <= |CriticalFields|
    ensures forall f: Field :: f in missing <==> Fails(c, data, f)
  {
    FailingFlags(c, data);
    PickExactly(Failing(c, data), f => Fails(c, data, f));
    Pick(Failing(c, data), CriticalFields)
  }

  /** What picking keeps: exactly the flagged items. */
  lemma {:induction false} PickMembers<T>(flags: seq<bool>, xs: seq<T>)
    requires |flags| == |xs|
    ensures forall x :: x in Pick(flags, xs) <==> exists i :: 0 <= i < |xs| && flags[i] && xs[i] == x
    ensures Pick(flags, xs) == [] <==> true !in flags
    ensures forall x :: x in Pick(flags, xs) ==> x in xs
    decreases |xs|
  {
    if xs != [] {
      PickMembers(flags[1..], xs[1..]);
      forall x ensures x in Pick(flags, xs) <==> exists i :: 0 <= i < |xs| && flags[i] && xs[i] == x {
        if x in Pick(flags[1..], xs[1..]) {
          var i :| 0 <= i < |xs[1..]| && flags[1..][i] && xs[1..][i] == x;
          assert flags[i + 1] && xs[i + 1] == x;
        }
        if exists i :: 0 <= i < |xs| && flags[i] && xs[i] == x {
          var i :| 0 <= i < |xs| && flags[i] && xs[i] == x;
          if i > 0 {
            assert flags[1..][i - 1] && xs[1..][i - 1] == x;
          }
        }
      }
      assert flags == [flags[0]] + flags[1..];
    }
  }

  /** Picking from a list without repeats gives a list without repeats. */
  lemma {:induction false} PickDistinct<T>(flags: seq<bool>, xs: seq<T>)
    requires |flags| == |xs| && Distinct(xs)
    ensures Distinct(Pick(flags, xs))
    decreases |xs|
  {
    if xs != [] {
      assert Distinct(xs[1..]);
      PickDistinct(flags[1..], xs[1..]);
      PickMembers(flags[1..], xs[1..]);
      if flags[0] {
        assert xs[0] !in Pick(flags[1..], xs[1..]);
      }
    }
  }

  /** The data is complete for export: no field's check fails. */
  predicate Complete(c: Coercion, data: JVal) {
    forall f: Field :: !Fails(c, data, f)
  }

  /** Nothing is reported exactly when the data is complete. */
  lemma ValidateCriticalEmpty(c: Coercion, data: JVal)
    ensures ValidateCritical(c, data) == [] <==> Complete(c, data)
  {
    var missing := ValidateCritical(c, data);
    if missing != [] {
      assert missing[0] in missing;
    }
  }

  /** Each field is reported at most once. */
  lemma ValidateCriticalDistinct(c: Coercion, data: JVal)
    ensures Distinct(ValidateCritical(c, data))
  {
    CriticalFieldsDistinct();
    PickDistinct(Failing(c, data), CriticalFields);
  }

  /** The position of a field in `CriticalFields`. */
  function Rank(f: Field): nat {
    match f
    case AutorNome => 0
    case AutorCpfCnpj => 1
    case AutorEndereco => 2
    case ReuNome => 3
    case ReuCpfCnpj => 4
    case ReuEndereco => 5
    case DividaOrigem => 6
    case DividaValor => 7
    case DividaDataVencimento => 8
    case FatosDescricao => 9
  }

  /** Each field's flag in `Failing` is its own check. */
  lemma FailingFlags(c: Coercion, data: JVal)
    ensures forall f: Field :: Rank(f) < |Failing(c, data)| && Failing(c, data)[Rank(f)] == Fails(c, data, f)
  {
    CriticalFieldsRank();
  }

  /** A picked field is a flagged one. */
  lemma PickedIsFlagged(flags: seq<bool>, f: Field)
    requires |flags| == |CriticalFields| && f in Pick(flags, CriticalFields)
    ensures Rank(f) < |flags| && flags[Rank(f)]
  {
    PickMembers(flags, CriticalFields);
    CriticalFieldsRank();
    var i :| 0 <= i < |CriticalFields| && flags[i] && CriticalFields[i] == f;
  }

  /** A flagged field is picked. */
  lemma FlaggedIsPicked(flags: seq<bool>, f: Field)
    requires |flags| == |CriticalFields| && Rank(f) < |flags| && flags[Rank(f)]
    ensures f in Pick(flags, CriticalFields)
  {
    PickMembers(flags, CriticalFields);
    CriticalFieldsRank();
    assert CriticalFields[Rank(f)] == f;
  }

  /** Picking from the fields with one flag per field keeps exactly the
      flagged ones. */
  lemma PickExactly(flags: seq<bool>, fails: Field -> bool)
    requires |flags| == |CriticalFields|
    requires forall f: Field :: Rank(f) < |flags| && flags[Rank(f)] == fails(f)
    ensures forall f: Field :: f in Pick(flags, CriticalFields) <==> fails(f)
  {
    forall f: Field ensures f in Pick(flags, CriticalFields) <==> fails(f) {
      if f in Pick(flags, CriticalFields) {
        PickedIsFlagged(flags, f);
      }
      if fails(f) {
        FlaggedIsPicked(flags, f);
      }
    }
  }

  /** The fields' ranks increase along the list. */
  predicate Ascending(fs: seq<Field>) {
    forall i, j :: 0 <= i < j < |fs| ==> Rank(fs[i]) < Rank(fs[j])
  }

  lemma AscendingCons(x: Field, fs: seq<Field>)
    requires Ascending(fs) && forall y :: y in fs ==> Rank(x) < Rank(y)
    ensures Ascending([x] + fs)
  {
    var r := [x] + fs;
    forall i, j | 0 <= i < j < |r| ensures Rank(r[i]) < Rank(r[j]) {
      assert r[j] == fs[j - 1] && r[j] in fs;
      if i > 0 {
        assert r[i] == fs[i - 1];
      }
    }
  }

  /** Picking from ascending fields gives ascending fields. */
  lemma {:induction false} PickAscending(flags: seq<bool>, xs: seq<Field>)
    requires |flags| == |xs| && Ascending(xs)
    ensures Ascending(Pick(flags, xs))
    decreases |xs|
  {
    if xs != [] {
      var more := Pick(flags[1..], xs[1..]);
      assert Ascending(xs[1..]) by {
        forall i, j | 0 <= i < j < |xs[1..]| ensures Rank(xs[1..][i]) < Rank(xs[1..][j]) {
          assert xs[1..][i] == xs[i + 1] && xs[1..][j] == xs[j + 1];
        }
      }
      PickAscending(flags[1..], xs[1..]);
      if flags[0] {
        PickMembers(flags[1..], xs[1..]);
        forall y | y in more ensures Rank(xs[0]) < Rank(y) {
          var k :| 0 <= k < |xs[1..]| && xs[1..][k] == y;
          assert xs[k + 1] == y;
        }
        AscendingCons(xs[0], more);
      } else {
        assert Pick(flags, xs) == more;
      }
    }
  }

  /** The fields are reported in the order the source checks them. */
  lemma ValidateCriticalOrdered(c: Coercion, data: JVal)
    ensures var missing := ValidateCritical(c, data);
            forall i, j :: 0 <= i < j < |missing| ==> Rank(missing[i]) < Rank(missing[j])
  {
    assert Ascending(CriticalFields) by {
      CriticalFieldsRank();
    }
    PickAscending(Failing(c, data), CriticalFields);
  }

  /** Each field sits at its rank. */
  lemma CriticalFieldsRank()
    ensures forall i :: 0 <= i < |CriticalFields| ==> Rank(CriticalFields[i]) == i
    ensures forall f: Field :: Rank(f) < |CriticalFields| && CriticalFields[Rank(f)] == f
  {
  }

  lemma CriticalFieldsDistinct()
    ensures Distinct(CriticalFields)
  {
    assert forall i :: 0 <= i < |CriticalFields| ==> Rank(CriticalFields[i]) == i;
  }

  /** Told apart by length and seventh character, the reported texts are as
      distinct as the fields. */
  function Signature(name: string): int {
    if |name| > 6 then |name| * 0x1_0000 + name[6] as int else |name|
  }

  lemma LabelsDistinct(f: Field, g: Field)
    requires f != g
    ensures f.Label() != g.Label()
  {
    assert Signature(f.Label()) != Signature(g.Label());
  }

  // ---------------------------------------------------------------------------
  // Grouping alerts by level
  // ---------------------------------------------------------------------------

  /** The three groups an alert can land in. */
  datatype Bin = ErrorBin | WarnBin | InfoBin

  /** `(a.level || "info").toLowerCase()`, read as a group. */
  function BinOf(a: Alert): Bin {
    var lvl := Lower(if a.level == [] then LevelInfo else a.level);
    if lvl == LevelError then ErrorBin else if lvl == LevelWarn then WarnBin else InfoBin
  }

  /** One iteration of the `for` loop: push the alert onto the group its
      level names. */
  function Push(g: Grouped, a: Alert, bin: Bin): Grouped {
    match bin
    case ErrorBin => g.(error := g.error + [a])
    case WarnBin => g.(warn := g.warn + [a])
    case InfoBin => g.(info := g.info + [a])
  }

  /** The loop over `alerts`, with the level reading as a parameter. */
  function GroupBy(g: Grouped, alerts: seq<Alert>, key: Alert -> Bin): Grouped
    decreases |alerts|
  {
    if alerts == [] then g else GroupBy(Push(g, alerts[0], key(alerts[0])), alerts[1..], key)
  }

  /** `groupAlerts(alerts)` */
  function GroupAlerts(alerts: seq<Alert>): Grouped {
    GroupBy(Grouped([], [], []), alerts, BinOf)
  }

  /** The alerts of one group, in input order. */
  function Select<T>(alerts: seq<T>, key: T -> Bin, b: Bin): (r: seq<T>)
    ensures |r| <= |alerts|
    decreases |alerts|
  {
    if alerts == [] then [] else (if key(alerts[0]) == b then [alerts[0]] else []) + Select(alerts[1..], key, b)
  }

  /** An alert is in a group exactly when it is in the input and its level
      names that group. */
  lemma {:induction false} SelectMembers<T>(alerts: seq<T>, key: T -> Bin, b: Bin)
    ensures forall a :: a in Select(alerts, key, b) <==> a in alerts && key(a) == b
    decreases |alerts|
  {
    if alerts != [] {
      SelectMembers(alerts[1..], key, b);
      assert alerts == [alerts[0]] + alerts[1..];
    }
  }

  /** One group of a grouping. */
  function Part(g: Grouped, b: Bin): seq<Alert> {
    match b
    case ErrorBin => g.error
    case WarnBin => g.warn
    case InfoBin => g.info
  }

  lemma {:induction false} GroupByPart(g: Grouped, alerts: seq<Alert>, key: Alert -> Bin, b: Bin)
    ensures Part(GroupBy(g, alerts, key), b) == Part(g, b) + Select(alerts, key, b)
    decreases |alerts|
  {
    if alerts == [] {
      assert Part(g, b) + [] == Part(g, b);
    } else {
      var a, rest := alerts[0], alerts[1..];
      var here := if key(a) == b then [a] else [];
      GroupByPart(Push(g, a, key(a)), rest, key, b);
      assert Part(Push(g, a, key(a)), b) == Part(g, b) + here;
      assert Part(g, b) + here + Select(rest, key, b) == Part(g, b) + (here + Select(rest, key, b));
    }
  }

  /** `groupAlerts` partitions by level and keeps the input order inside
      each group. */
  lemma GroupAlertsPartition(alerts: seq<Alert>)
    ensures GroupAlerts(alerts)
            == Grouped(Select(alerts, BinOf, ErrorBin), Select(alerts, BinOf, WarnBin), Select(alerts, BinOf, InfoBin))
  {
    var g := GroupAlerts(alerts);
    GroupByPart(Grouped([], [], []), alerts, BinOf, ErrorBin);
    GroupByPart(Grouped([], [], []), alerts, BinOf, WarnBin);
    GroupByPart(Grouped([], [], []), alerts, BinOf, InfoBin);
    assert g.error == Part(g, ErrorBin) && g.warn == Part(g, WarnBin) && g.info == Part(g, InfoBin);
  }

  /** No alert is lost or duplicated: the groups together are a permutation
      of the input. */
  lemma GroupAlertsPermutes(alerts: seq<Alert>)
    ensures var g := GroupAlerts(alerts);
            multiset(g.error) + multiset(g.warn) + multiset(g.info) == multiset(alerts)
  {
    GroupAlertsPartition(alerts);
    SelectCovers(alerts, BinOf);
  }

  lemma {:induction false} SelectCovers<T>(alerts: seq<T>, key: T -> Bin)
    ensures multiset(Select(alerts, key, ErrorBin)) + multiset(Select(alerts, key, WarnBin))
            + multiset(Select(alerts, key, InfoBin)) == multiset(alerts)
    decreases |alerts|
  {
    if alerts != [] {
      SelectCovers(alerts[1..], key);
      CoverStep(alerts, key);
      HeadMultiset(alerts);
    }
  }

  /** One alert more in the input is one alert more in exactly one group. */
  lemma CoverStep<T>(alerts: seq<T>, key: T -> Bin)
    requires alerts != []
    ensures multiset(Select(alerts, key, ErrorBin)) + multiset(Select(alerts, key, WarnBin)) + multiset(Select(alerts, key, InfoBin))
            == multiset{alerts[0]} + (multiset(Select(alerts[1..], key, ErrorBin)) + multiset(Select(alerts[1..], key, WarnBin))
                                      + multiset(Select(alerts[1..], key, InfoBin)))
  {
    SelectStep(alerts, key, ErrorBin);
    SelectStep(alerts, key, WarnBin);
    SelectStep(alerts, key, InfoBin);
  }

  lemma HeadMultiset<T>(xs: seq<T>)
    requires xs != []
    ensures multiset(xs) == multiset{xs[0]} + multiset(xs[1..])
  {
    assert xs == [xs[0]] + xs[1..];
  }


  lemma SelectStep<T>(alerts: seq<T>, key: T -> Bin, b: Bin)
    requires alerts != []
    ensures multiset(Select(alerts, key, b))
            == (if key(alerts[0]) == b then multiset{alerts[0]} else multiset{}) + multiset(Select(alerts[1..], key, b))
  {
  }


  /** The grouped alerts as the response carries them. */
  function GroupedToJson(g: Grouped): JVal {
    JObj([("error", AlertsToJson(g.error)), ("warn", AlertsToJson(g.warn)), ("info", AlertsToJson(g.info))])
  }

  const MissingCode := "MISSING_CRITICAL"

  /** The alert the handler builds for one missing field. */
  function MissingAlert(f: Field): Alert {
    Alert(LevelError, MissingCode, "Campo obrigatório ausente: " + f.Label())
  }

  function MissingAlerts(fields: seq<Field>): (r: seq<Alert>)
    ensures |r| == |fields| && forall i :: 0 <= i < |fields| ==> r[i] == MissingAlert(fields[i])
  {
    seq(|fields|, i requires 0 <= i < |fields| => MissingAlert(fields[i]))
  }

  /** The 422 answer lists every missing label as an error, in order, and
      nothing as a warning or information. */
  lemma MissingAllErrors(fields: seq<Field>)
    ensures GroupAlerts(MissingAlerts(fields)) == Grouped(MissingAlerts(fields), [], [])
  {
    var alerts := MissingAlerts(fields);
    GroupAlertsPartition(alerts);
    assert Lower(LevelError) == LevelError;
    assert forall i :: 0 <= i < |alerts| ==> BinOf(alerts[i]) == ErrorBin;
    AllSelected(alerts, BinOf, ErrorBin);
  }

  /** When every alert reads as one group, that group is all of them. */
  lemma {:induction false} AllSelected<T>(alerts: seq<T>, key: T -> Bin, b: Bin)
    requires forall i :: 0 <= i < |alerts| ==> key(alerts[i]) == b
    ensures Select(alerts, key, b) == alerts
    ensures forall other :: other != b ==> Select(alerts, key, other) == []
    decreases |alerts|
  {
    if alerts != [] {
      AllSelected(alerts[1..], key, b);
    }
  }

  // ---------------------------------------------------------------------------
  // Placeholders
  // ---------------------------------------------------------------------------

  /** A property read that throws: `x.trim` on a value without `trim`, or
      the misspelt `padPadStart`. */
  datatype Fault = TypeError(member: string)

  /** The placeholder values apart from the two money amounts: the court,
      the seven trimmed texts in the template's order (`AUTOR_NOME`,
      `AUTOR_CPF_CNPJ`, `AUTOR_ENDERECO`, `REU_NOME`, `REU_CPF_CNPJ`,
      `REU_ENDERECO`, `FATOS_DESCRICAO`), the due date and the place
      line. */
  datatype Placeholders = Placeholders(juizo: string, texts: seq<string>, dataVencimento: string, localData: string)

  const DefaultJuizo := "___ Vara Cível da Comarca de ___"

  /** `(x || "").trim()`: only strings have `trim`, so any other present
      value throws. */
  function TrimField(o: Option<JVal>): (r: Result<string, Fault>)
    ensures r.Success? <==> CanTrim(o)
    ensures r.Success? ==> r.value == TrimmedText(o)
    ensures r.Failure? ==> r.error == TypeError("trim")
  {
    if !Present(o) then Success("")
    else if o.value.JStr? then Success(Trim(o.value.str))
    else Failure(TypeError("trim"))
  }

  /** `String(n).padStart(2, "0")` */
  function Pad2(n: nat): (r: string)
    ensures n < 100 ==> |r| == 2
    ensures forall i :: 0 <= i < |r| ==> IsDigit(r[i])
  {
    var s := NatToString(n);
    if |s| < 2 then "0" + s else s
  }

  /** `formatLocalData()` as evidently meant, with the clock's day, month
      and year as parameters. */
  function FormatLocalData(day: nat, month: nat, year: nat): (r: string)
    ensures |r| >= 7 && r[..7] == "Local, " && r[|r| - 1] == '.'
  {
    "Local, " + Pad2(day) + "/" + Pad2(month) + "/" + NatToString(year) + "."
  }

  /** For a day and month below 100 the place line is `Local, DD/MM/Y….`:
      two digits, a slash, two digits, a slash, the year's digits. */
  lemma LocalDataShape(day: nat, month: nat, year: nat)
    requires day < 100 && month < 100
    ensures var r := FormatLocalData(day, month, year);
            |r| == 14 + |NatToString(year)| && r[9] == '/' && r[12] == '/'
            && IsDigit(r[7]) && IsDigit(r[8]) && IsDigit(r[10]) && IsDigit(r[11])
            && (forall i :: 13 <= i < |r| - 1 ==> IsDigit(r[i]))
  {
    var d, m, y := Pad2(day), Pad2(month), NatToString(year);
    var r := FormatLocalData(day, month, year);
    assert r == "Local, " + d + "/" + m + "/" + y + ".";
    assert r[7..9] == d && r[10..12] == m && r[13..|r| - 1] == y;
  }

  /** `formatLocalData()` as written: the month's `padPadStart` is not a
      function, so every call throws this. */
  const LocalDataFault := TypeError("padPadStart")

  /** The court: the configured one when it holds text, the blank form
      otherwise. */
  function Juizo(data: JVal): (j: string)
    ensures j != [] && IsTrimmed(j)
  {
    var v := Get(Block(data, "config"), "juizo");
    if HasText(v) then
      TrimIsTrimmed(v.value.str);
      Trim(v.value.str)
    else DefaultJuizo
  }

  /** A field `(x || "").trim()` can read: missing, falsy or a string. */
  predicate CanTrim(o: Option<JVal>) {
    !Present(o) || o.value.JStr?
  }

  /** What `(x || "").trim()` reads for a field that can be read. */
  function TrimmedText(o: Option<JVal>): string
    requires CanTrim(o)
  {
    if Present(o) then Trim(o.value.str) else ""
  }

  /** The fields `buildPlaceholders` trims, in the literal's order. */
  function TrimmedFields(data: JVal): (fs: seq<Option<JVal>>)
    ensures |fs| == 7
  {
    var autor, reu, fatos := Party(data, "autor"), Party(data, "reu"), Block(data, "fatos");
    [Get(autor, "nome"), Get(autor, "cpf_cnpj"), Get(autor, "endereco"),
     Get(reu, "nome"), Get(reu, "cpf_cnpj"), Get(reu, "endereco"),
     Get(fatos, "descricao_orientada")]
  }

  /** None of the seven trimmed fields throws. */
  predicate Trimmable(data: JVal) {
    forall i :: 0 <= i < 7 ==> CanTrim(TrimmedFields(data)[i])
  }

  /** Trimming the fields in order; the first that throws ends it. */
  function TrimAll(fs: seq<Option<JVal>>): (r: Result<seq<string>, Fault>)
    ensures r.Success? <==> forall i :: 0 <= i < |fs| ==> CanTrim(fs[i])
    ensures r.Success? ==> |r.value| == |fs| && forall i :: 0 <= i < |fs| ==> r.value[i] == TrimmedText(fs[i])
    ensures r.Failure? ==> r.error == TypeError("trim")
    decreases |fs|
  {
    if fs == [] then Success([])
    else
      var first :- TrimField(fs[0]);
      var rest :- TrimAll(fs[1..]);
      assert forall i :: 1 <= i < |fs| ==> fs[i] == fs[1..][i - 1];
      Success([first] + rest)
  }

  /** `buildPlaceholders(data)` with the month padding it evidently
      intends, the clock's date as parameters. */
  function BuildPlaceholders(c: Coercion, data: JVal, day: nat, month: nat, year: nat): (r: Result<Placeholders, Fault>)
    ensures r.Success? <==> Trimmable(data)
    ensures r.Success? ==> r.value.dataVencimento == FormatDateBR(c, Get(Block(data, "divida"), "data_vencimento"))
                           && r.value.localData == FormatLocalData(day, month, year)
  {
    Fill(data, FormatDateBR(c, Get(Block(data, "divida"), "data_vencimento")), FormatLocalData(day, month, year))
  }

  /** `buildPlaceholders(data)` as written: once the fields before it are
      evaluated, `formatLocalData()` throws. */
  function BuildPlaceholdersAsWritten(c: Coercion, data: JVal): (r: Result<Placeholders, Fault>)
    ensures r.Failure?
    ensures Trimmable(data) ==> r.error == LocalDataFault
    ensures !Trimmable(data) ==> r.error == TypeError("trim")
  {
    var fields :- Fill(data, FormatDateBR(c, Get(Block(data, "divida"), "data_vencimento")), "");
    Failure(LocalDataFault)
  }

  /** The placeholder object, its literal evaluated top to bottom: the
      first field whose `trim` throws ends it. The due date and the place
      line come in already formatted. */
  function Fill(data: JVal, vencimento: string, local: string): (r: Result<Placeholders, Fault>)
    ensures r.Success? <==> Trimmable(data)
    ensures r.Success? ==> r.value.dataVencimento == vencimento && r.value.localData == local && r.value.juizo == Juizo(data)
                           && |r.value.texts| == 7
                           && forall i :: 0 <= i < 7 ==> r.value.texts[i] == TrimmedText(TrimmedFields(data)[i])
  {
    var ts :- TrimAll(TrimmedFields(data));
    Success(Placeholders(Juizo(data), ts, vencimento, local))
  }

  // ---------------------------------------------------------------------------
  // The handler
  // ---------------------------------------------------------------------------

  datatype Answer = NoContent | Send(status: int, body: seq<(string, JVal)>)

  /** The clock readings the handler uses: `Date.now()` and today's date. */
  datatype Clock = Clock(nowMs: nat, day: nat, month: nat, year: nat)

  /** What lies outside the model: the Word template engine (placeholders
      in, base64 DOCX or an error message out) and the engine's wording of
      a `TypeError`. */
  datatype Collaborators = Collaborators(render: Placeholders -> Result<string, string>, faultText: Fault -> string)

  const DocxMime := "application/vnd.openxmlformats-officedocument.wordprocessingml.document"
  const MethodMessage := "Use POST"
  const NoDataMessage := "Campo 'data' ausente"
  const CriticalMessage := "Campos críticos ausentes para exportar DOCX"
  const RenderFailedMessage := "Falha ao gerar DOCX"
  const BodyFallbackMessage := "Body inválido"

  /** `err(res, status, message, details)`: an absent `details` is dropped
      by `JSON.stringify`. */
  function Err(status: int, message: string, details: Option<JVal>): (a: Answer)
    ensures a.Send? && a.status == status && |a.body| >= 2 && a.body[0] == ("ok", JBool(false))
    ensures a.body[1] == ("error", JStr(if message == [] then "Erro" else message))
    ensures details.Some? <==> |a.body| == 3
    ensures details.Some? ==> a.body[2] == ("details", details.value)
  {
    Send(status, [("ok", JBool(false)), ("error", JStr(if message == [] then "Erro" else message))]
                 + (if details.Some? then [("details", details.value)] else []))
  }

  function Filename(nowMs: nat): string {
    "acao_cobranca_" + NatToString(nowMs) + ".docx"
  }

  /** `ok(res, {...})` for a rendered document. */
  function Exported(nowMs: nat, base64: string): Answer {
    Send(200, [("ok", JBool(true)), ("filename", JStr(Filename(nowMs))), ("mime", JStr(DocxMime)),
               ("base64", JStr(base64)), ("alertsGrouped", GroupedToJson(GroupAlerts([])))])
  }

  /** `data = body && body.data ? body.data : null` */
  function DataOf(body: JVal): Option<JVal> {
    if Truthy(body) && Present(Get(body, "data")) then Get(body, "data") else None
  }

  /** The steps up to the critical-field check, shared by both readings of
      the handler: `Some` is an answer already sent, `None` hands `data`
      on. */
  function Preamble(c: Coercion, verb: string, secret: Option<string>, headers: seq<(string, JVal)>,
                    body: Result<JVal, string>): (r: Result<JVal, Answer>)
    ensures r.Success? ==> verb == "POST" && AuthOr401(c, secret, headers).None? && body.Success?
                           && DataOf(body.value) == Some(r.value) && ValidateCritical(c, r.value) == []
    ensures r.Failure? && r.error.Send? ==> r.error.status in {405, 500, 401, 400, 422}
                                            && |r.error.body| >= 2 && r.error.body[0] == ("ok", JBool(false))
  {
    if verb == "OPTIONS" then Failure(NoContent)
    else if verb != "POST" then Failure(Err(405, MethodMessage, None))
    else match AuthOr401(c, secret, headers)
      case Some((status, message)) => Failure(Err(status, message, None))
      case None =>
        match body
        case Failure(msg) => Failure(Err(400, if msg == [] then BodyFallbackMessage else msg, None))
        case Success(b) =>
          match DataOf(b)
          case None => Failure(Err(400, NoDataMessage, None))
          case Some(data) =>
            var missing := ValidateCritical(c, data);
            if |missing| > 0 then
              Failure(Err(422, CriticalMessage,
                          Some(JObj([("alertsGrouped", GroupedToJson(GroupAlerts(MissingAlerts(missing))))]))))
            else Success(data)
  }

  /** The `try` block: placeholders, then the template. */
  function Render(placeholders: Result<Placeholders, Fault>, clock: Clock, io: Collaborators): Answer {
    match placeholders
    case Failure(f) => Err(500, RenderFailedMessage, Some(JObj([("message", JStr(io.faultText(f)))])))
    case Success(p) =>
      match io.render(p)
      case Failure(msg) => Err(500, RenderFailedMessage, Some(JObj([("message", JStr(msg))])))
      case Success(base64) => Exported(clock.nowMs, base64)
  }

  /** The endpoint with `formatLocalData` as evidently meant. */
  function DocxHandler(c: Coercion, verb: string, secret: Option<string>, headers: seq<(string, JVal)>,
                       body: Result<JVal, string>, clock: Clock, io: Collaborators): (r: Answer)
    ensures r.Send? && r.status == 200 ==>
              verb == "POST" && AuthOr401(c, secret, headers).None? && body.Success?
              && DataOf(body.value).Some? && ValidateCritical(c, DataOf(body.value).value) == []
  {
    match Preamble(c, verb, secret, headers, body)
    case Failure(answer) => answer
    case Success(data) => Render(BuildPlaceholders(c, data, clock.day, clock.month, clock.year), clock, io)
  }

  /** The endpoint as written. */
  function DocxHandlerAsWritten(c: Coercion, verb: string, secret: Option<string>, headers: seq<(string, JVal)>,
                                body: Result<JVal, string>, clock: Clock, io: Collaborators): (r: Answer)
  {
    match Preamble(c, verb, secret, headers, body)
    case Failure(answer) => answer
    case Success(data) => Render(BuildPlaceholdersAsWritten(c, data), clock, io)
  }

  /** What the steps before the `try` decide for an authorised POST whose
      body holds `data`: 422 with one error alert per missing label, or on
      to the placeholders. */
  lemma PreambleOnData(c: Coercion, secret: string, headers: seq<(string, JVal)>, b: JVal)
    requires AuthOr401(c, Some(secret), headers).None? && DataOf(b).Some?
    ensures var missing := ValidateCritical(c, DataOf(b).value);
            Preamble(c, "POST", Some(secret), headers, Success(b))
            == if missing == [] then Success(DataOf(b).value)
               else Failure(Err(422, CriticalMessage,
                                Some(JObj([("alertsGrouped", GroupedToJson(Grouped(MissingAlerts(missing), [], [])))]))))
  {
    MissingAllErrors(ValidateCritical(c, DataOf(b).value));
  }

  /** As written, the endpoint never exports: every request that passes
      the checks ends in the 500 of the `catch`. */
  lemma AsWrittenNeverExports(c: Coercion, verb: string, secret: Option<string>, headers: seq<(string, JVal)>,
                              body: Result<JVal, string>, clock: Clock, io: Collaborators)
    ensures var r := DocxHandlerAsWritten(c, verb, secret, headers, body, clock, io);
            !(r.Send? && r.status == 200)
    ensures var r := DocxHandlerAsWritten(c, verb, secret, headers, body, clock, io);
            Preamble(c, verb, secret, headers, body).Success?
            ==> r.Send? && r.status == 500 && r.body[1] == ("error", JStr(RenderFailedMessage))
  {
    match Preamble(c, verb, secret, headers, body)
    case Failure(answer) =>
    case Success(data) =>
      RenderFault(BuildPlaceholdersAsWritten(c, data).error, clock, io);
  }

  /** A throw while building the placeholders is the `catch`'s 500. */
  lemma RenderFault(f: Fault, clock: Clock, io: Collaborators)
    ensures var r := Render(Failure(f), clock, io);
            r.Send? && r.status == 500 && r.body[1] == ("error", JStr(RenderFailedMessage))
  {
  }

  /** With the padding fixed, complete data whose text fields are strings
      is exported whenever the template renders. */
  lemma CorrectedExports(c: Coercion, secret: string, headers: seq<(string, JVal)>, b: JVal,
                         clock: Clock, io: Collaborators)
    requires AuthOr401(c, Some(secret), headers).None?
    requires DataOf(b).Some? && Complete(c, DataOf(b).value) && Trimmable(DataOf(b).value)
    requires io.render(BuildPlaceholders(c, DataOf(b).value, clock.day, clock.month, clock.year).value).Success?
    ensures DocxHandler(c, "POST", Some(secret), headers, Success(b), clock, io)
            == Exported(clock.nowMs, io.render(BuildPlaceholders(c, DataOf(b).value, clock.day, clock.month, clock.year).value).value)
  {
    ValidateCriticalEmpty(c, DataOf(b).value);
    PreambleOnData(c, secret, headers, b);
  }

  /** Incomplete data is answered 422 with one error alert per missing
      label, whatever else the request holds. */
  lemma IncompleteIs422(c: Coercion, secret: string, headers: seq<(string, JVal)>, b: JVal,
                        clock: Clock, io: Collaborators)
    requires AuthOr401(c, Some(secret), headers).None?
    requires DataOf(b).Some? && !Complete(c, DataOf(b).value)
    ensures var missing := ValidateCritical(c, DataOf(b).value);
            DocxHandler(c, "POST", Some(secret), headers, Success(b), clock, io)
            == Err(422, CriticalMessage, Some(JObj([("alertsGrouped", GroupedToJson(Grouped(MissingAlerts(missing), [], [])))])))
  {
    ValidateCriticalEmpty(c, DataOf(b).value);
    PreambleOnData(c, secret, headers, b);
  }
}
