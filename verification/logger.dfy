/** The structured logger's scrubbing step (`sanitize`): before an event's
    metadata is logged, long strings are clipped, arrays cut to twenty
    items, nesting cut below depth three, and the value of every key that
    names personal data replaced by a marker. */
module Logger {
  import opened Wrappers
  import opened Text
  import opened Json

  const MaxString := 500
  const MaxDepth := 3
  const MaxItems := 20
  const Truncated := "[TRUNCATED]"
  const Redacted := "[REDACTED]"

  /** The words of the personal-data key pattern, matched anywhere in a key
      and regardless of case. */
  const PiiWords: seq<string> :=
    ["cpf", "cnpj", "rg", "endereco", "address", "email", "telefone", "phone", "nome", "name"]

  /** `PII_KEYS.test(k)` */
  predicate IsPii(k: string) {
    exists i :: 0 <= i < |PiiWords| && ContainsCi(k, PiiWords[i])
  }

  /** How many more levels `sanitize` descends from `depth`. */
  function Budget(depth: nat): nat {
    if depth > MaxDepth then 0 else MaxDepth + 1 - depth
  }

  function Min(a: nat, b: nat): nat {
    if a < b then a else b
  }

  /** `sanitize(value, depth)` on a JSON value (`null` is returned as is). */
  function Sanitize(v: JVal, depth: nat): (r: JVal)
    ensures depth > MaxDepth ==> r == JStr(Truncated)
    ensures depth <= MaxDepth && v.JStr? && |v.str| <= MaxString ==> r == v
    ensures depth <= MaxDepth && v.JStr? && |v.str| > MaxString
            ==> r.JStr? && |r.str| == MaxString + 3 && r.str[..MaxString] == v.str[..MaxString] && r.str[MaxString..] == "..."
    ensures depth <= MaxDepth && v.JArr? ==> r.JArr? && |r.items| == Min(|v.items|, MaxItems)
    ensures depth <= MaxDepth && v.JObj? ==> r.JObj? && Keys(r.entries) == Omit(Keys(v.entries), ProtoKey)
    ensures depth <= MaxDepth && !v.JStr? && !IsObjectLike(v) ==> r == v
    decreases Budget(depth), 1
  {
    if depth > MaxDepth then JStr(Truncated)
    else match v
      case JStr(s) => JStr(Clip(s, MaxString, "..."))
      case JArr(items) =>
        JArr(seq(Min(|items|, MaxItems), i requires 0 <= i < Min(|items|, MaxItems) => Sanitize(items[i], depth + 1)))
      case JObj(es) =>
        // Assignments into a fresh object: a `__proto__` key stores nothing.
        JObj(Stored(Scrubbed(es, depth)))
      case _ => v
  }

  /** The entries `sanitize` assigns for an object's entries at `depth`,
      before storing. */
  function Scrubbed(es: seq<(string, JVal)>, depth: nat): (out: seq<(string, JVal)>)
    requires depth <= MaxDepth
    ensures |out| == |es| && Keys(out) == Keys(es)
    ensures forall i :: 0 <= i < |es| ==>
              out[i] == (es[i].0, if IsPii(es[i].0) then JStr(Redacted) else Sanitize(es[i].1, depth + 1))
    decreases Budget(depth), 0
  {
    var out := seq(|es|, i requires 0 <= i < |es| =>
      (es[i].0, if IsPii(es[i].0) then JStr(Redacted) else Sanitize(es[i].1, depth + 1)));
    assert forall i :: 0 <= i < |es| ==> Keys(out)[i] == Keys(es)[i];
    out
  }

  /** The prototype key names no personal data, so it is never redacted. */
  lemma ProtoNotPii()
    ensures !IsPii(ProtoKey)
  {
    assert Lower(ProtoKey) == ProtoKey;
    forall i | 0 <= i < |PiiWords| ensures !ContainsCi(ProtoKey, PiiWords[i]) {
      var w := Lower(PiiWords[i]);
      var j := if i == 2 || i == 6 || i == 7 then 1 else 0;
      assert w[j] !in ProtoKey;
      ContainsChar(ProtoKey, w, j);
    }
  }

  /** What a scrubbed value looks like from `depth` down: strings of at most
      503 characters, arrays of at most twenty items, nothing below the
      depth cap but the truncation marker, and every personal-data key
      holding the redaction marker. */
  predicate Safe(v: JVal, depth: nat)
    decreases Budget(depth)
  {
    match v
    case JStr(s) => |s| <= MaxString + 3
    case JArr(items) =>
      depth <= MaxDepth && |items| <= MaxItems
      && forall i :: 0 <= i < |items| ==> Safe(items[i], depth + 1)
    case JObj(es) =>
      depth <= MaxDepth
      && forall i :: 0 <= i < |es| ==>
           if IsPii(es[i].0) then es[i].1 == JStr(Redacted) else Safe(es[i].1, depth + 1)
    case _ => depth <= MaxDepth
  }

  /** Every sanitized value is safe to log. */
  lemma {:induction false} SanitizeSafe(v: JVal, depth: nat)
    ensures Safe(Sanitize(v, depth), depth)
    decreases Budget(depth)
  {
    if depth <= MaxDepth {
      match v
      case JArr(items) =>
        forall i | 0 <= i < |items| ensures Safe(Sanitize(items[i], depth + 1), depth + 1) {
          SanitizeSafe(items[i], depth + 1);
        }
        SafeArray(items, depth);
      case JObj(es) =>
        forall j | 0 <= j < |es| && !IsPii(es[j].0) ensures Safe(Sanitize(es[j].1, depth + 1), depth + 1) {
          SanitizeSafe(es[j].1, depth + 1);
        }
        SafeObject(es, depth);
      case _ =>
    }
  }

  /** An array whose scrubbed items are safe is safe once scrubbed. */
  lemma SafeArray(items: seq<JVal>, depth: nat)
    requires depth <= MaxDepth
    requires forall i :: 0 <= i < |items| ==> Safe(Sanitize(items[i], depth + 1), depth + 1)
    ensures Safe(Sanitize(JArr(items), depth), depth)
  {
    var r := Sanitize(JArr(items), depth).items;
    assert forall i :: 0 <= i < |r| ==> r[i] == Sanitize(items[i], depth + 1);
  }

  /** An object whose scrubbed values are safe is safe once scrubbed. */
  lemma SafeObject(es: seq<(string, JVal)>, depth: nat)
    requires depth <= MaxDepth
    requires forall j :: 0 <= j < |es| && !IsPii(es[j].0) ==> Safe(Sanitize(es[j].1, depth + 1), depth + 1)
    ensures Safe(Sanitize(JObj(es), depth), depth)
  {
    var out := Scrubbed(es, depth);
    var r := Stored(out);
    forall i | 0 <= i < |r| ensures if IsPii(r[i].0) then r[i].1 == JStr(Redacted) else Safe(r[i].1, depth + 1) {
      var j := StoredFrom(out, i);
    }
  }

  /** A personal-data key at the top level keeps its name and loses its
      value; `Safe` says the same for every level. */
  lemma RedactsTopLevel(es: seq<(string, JVal)>, k: string)
    requires k in Keys(es) && IsPii(k)
    ensures Lookup(Sanitize(JObj(es), 0).entries, k) == Some(JStr(Redacted))
  {
    var out := Scrubbed(es, 0);
    ProtoNotPii();
    StoredLookup(out, k);
  }

  /** Scrubbing a scrubbed value again changes nothing. */
  lemma {:induction false} SanitizeIdempotent(v: JVal, depth: nat)
    ensures Sanitize(Sanitize(v, depth), depth) == Sanitize(v, depth)
    decreases Budget(depth)
  {
    if depth <= MaxDepth {
      match v
      case JStr(s) =>
        IdempotentStr(s, depth);
      case JArr(items) =>
        forall i | 0 <= i < |items|
          ensures Sanitize(Sanitize(items[i], depth + 1), depth + 1) == Sanitize(items[i], depth + 1)
        {
          SanitizeIdempotent(items[i], depth + 1);
        }
        IdempotentArray(items, depth);
      case JObj(es) =>
        forall j | 0 <= j < |es| && !IsPii(es[j].0)
          ensures Sanitize(Sanitize(es[j].1, depth + 1), depth + 1) == Sanitize(es[j].1, depth + 1)
        {
          SanitizeIdempotent(es[j].1, depth + 1);
        }
        IdempotentObject(es, depth);
      case _ =>
    }
  }

  /** A clipped string is clipped no further. */
  lemma IdempotentStr(s: string, depth: nat)
    requires depth <= MaxDepth
    ensures Sanitize(Sanitize(JStr(s), depth), depth) == Sanitize(JStr(s), depth)
  {
    assert Sanitize(JStr(s), depth) == JStr(Clip(s, MaxString, "..."));
    ClipIdempotent(s, MaxString, "...");
  }

  /** An array whose scrubbed items are fixed by scrubbing is fixed once
      scrubbed. */
  lemma IdempotentArray(items: seq<JVal>, depth: nat)
    requires depth <= MaxDepth
    requires forall i :: 0 <= i < |items|
               ==> Sanitize(Sanitize(items[i], depth + 1), depth + 1) == Sanitize(items[i], depth + 1)
    ensures Sanitize(Sanitize(JArr(items), depth), depth) == Sanitize(JArr(items), depth)
  {
    var r := Sanitize(JArr(items), depth).items;
    var rr := Sanitize(JArr(r), depth).items;
    assert forall i :: 0 <= i < |r| ==> r[i] == Sanitize(items[i], depth + 1);
    assert forall i :: 0 <= i < |rr| ==> rr[i] == Sanitize(r[i], depth + 1);
    assert rr == r;
  }

  /** An object whose scrubbed values are fixed by scrubbing is fixed once
      scrubbed. */
  lemma IdempotentObject(es: seq<(string, JVal)>, depth: nat)
    requires depth <= MaxDepth
    requires forall j :: 0 <= j < |es| && !IsPii(es[j].0)
               ==> Sanitize(Sanitize(es[j].1, depth + 1), depth + 1) == Sanitize(es[j].1, depth + 1)
    ensures Sanitize(Sanitize(JObj(es), depth), depth) == Sanitize(JObj(es), depth)
  {
    var out := Scrubbed(es, depth);
    var r := Stored(out);
    var again := Scrubbed(r, depth);
    forall i | 0 <= i < |again| ensures again[i] == r[i] {
      var j := StoredFrom(out, i);
    }
    assert again == r;
    StoredAll(again);
  }

  /** A key is recognised in any capitalisation and anywhere inside it:
      `"CPF"`, `"reuNome"`, `"email_contato"`. */
  lemma PiiAnyCase(a: string, w: string, b: string, j: nat)
    requires j < |PiiWords| && Lower(w) == PiiWords[j]
    ensures IsPii(a + w + b)
  {
    var k := a + w + b;
    assert Lower(k) == Lower(a) + Lower(w) + Lower(b);
    LowerIdempotent(w);
    ContainsSelf(Lower(w));
    ContainsInConcat(Lower(a), Lower(w), Lower(b), Lower(w));
    assert ContainsCi(k, PiiWords[j]);
  }
}
