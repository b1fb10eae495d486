/** JSON-like values as the handlers see them after `JSON.parse`, together with
    the JavaScript operations the code applies to them: property reads,
    truthiness, `String(x)`, `Number(x)`, `Object.entries`, object spread and
    dotted-path lookup. */
module Json {
  import opened Wrappers
  import opened Text

  /** A parsed JSON value. Numbers are finite (JSON cannot spell NaN or
      Infinity); an object keeps its entries in enumeration order. */
  datatype JVal =
    | JNull
    | JBool(boolean: bool)
    | JNum(num: real)
    | JStr(str: string)
    | JArr(items: seq<JVal>)
    | JObj(entries: seq<(string, JVal)>)

  /** The two coercions whose number formatting and parsing are not modelled:
      `String(n)` for a number, and `Number(s)` for a string, `None` standing
      for NaN or an infinite result. */
  datatype Coercion = Coercion(numberToString: real -> string, stringToNumber: string -> Option<real>)

  // ---------------------------------------------------------------------------
  // Property access
  // ---------------------------------------------------------------------------

  /** The value stored under `key`, first entry first; `None` is `undefined`. */
  function Lookup(es: seq<(string, JVal)>, key: string): (r: Option<JVal>)
    ensures r.Some? <==> key in Keys(es)
    ensures r.Some? ==> (key, r.value) in es
    decreases |es|
  {
    if |es| == 0 then None
    else if es[0].0 == key then Some(es[0].1)
    else Lookup(es[1..], key)
  }

  /** The property names of an object, in enumeration order. */
  function Keys(es: seq<(string, JVal)>): (ks: seq<string>)
    ensures |ks| == |es|
    ensures forall i :: 0 <= i < |es| ==> ks[i] == es[i].0
    decreases |es|
  {
    if |es| == 0 then [] else [es[0].0] + Keys(es[1..])
  }

  /** `v[key]` for the plain property names the core reads: only objects
      carry them, every other value answers `undefined`. */
  function Get(v: JVal, key: string): Option<JVal> {
    if v.JObj? then Lookup(v.entries, key) else None
  }

  /** `o?.[key]`, where `o` may itself be `undefined`. */
  function GetOpt(o: Option<JVal>, key: string): Option<JVal> {
    if o.Some? then Get(o.value, key) else None
  }

  // ---------------------------------------------------------------------------
  // Truthiness and typeof
  // ---------------------------------------------------------------------------

  predicate Truthy(v: JVal) {
    match v
    case JNull => false
    case JBool(b) => b
    case JNum(x) => x != 0.0
    case JStr(t) => t != []
    case _ => true
  }

  /** Truthiness of a value that may be `undefined`. */
  predicate Present(o: Option<JVal>) {
    o.Some? && Truthy(o.value)
  }

  /** `typeof v === "object" && v !== null`: objects and arrays. */
  predicate IsObjectLike(v: JVal) {
    v.JObj? || v.JArr?
  }

  /** `o || fallback` */
  function Or(o: Option<JVal>, fallback: JVal): (r: JVal)
    ensures Present(o) ==> r == o.value
    ensures !Present(o) ==> r == fallback
  {
    if Present(o) then o.value else fallback
  }

  // ---------------------------------------------------------------------------
  // Coercion to text and number
  // ---------------------------------------------------------------------------

  /** `String(v)` */
  function ToStr(c: Coercion, v: JVal): string {
    match v
    case JNull => "null"
    case JBool(b) => if b then "true" else "false"
    case JNum(x) => c.numberToString(x)
    case JStr(t) => t
    case JArr(items) => JoinItems(c, items)
    case JObj(_) => "[object Object]"
  }

  /** `Array.prototype.join(",")`, which prints `null` elements as nothing. */
  function JoinItems(c: Coercion, items: seq<JVal>): string {
    if |items| == 0 then []
    else
      var head := if items[0].JNull? then [] else ToStr(c, items[0]);
      if |items| == 1 then head else head + "," + JoinItems(c, items[1..])
  }

  /** `String(o || "")`: the text of a present value, "" otherwise. */
  function StrOr(c: Coercion, o: Option<JVal>): (r: string)
    ensures !Present(o) ==> r == []
    ensures Present(o) && o.value.JStr? ==> r == o.value.str
  {
    if Present(o) then ToStr(c, o.value) else []
  }

  /** `Number(v)` for a value that may be `undefined`; `None` is NaN. */
  function ToNumber(c: Coercion, o: Option<JVal>): Option<real> {
    match o
    case None => None
    case Some(JNull) => Some(0.0)
    case Some(JBool(b)) => Some(if b then 1.0 else 0.0)
    case Some(JNum(x)) => Some(x)
    case Some(JStr(t)) => c.stringToNumber(t)
    case Some(v) => c.stringToNumber(ToStr(c, v))
  }

  // ---------------------------------------------------------------------------
  // Objects as entry lists
  // ---------------------------------------------------------------------------

  predicate UniqueKeys(es: seq<(string, JVal)>) {
    forall i, j :: 0 <= i < j < |es| ==> es[i].0 != es[j].0
  }

  /** A key of the first part of an object is read there, any other key
      in the second part. */
  lemma {:induction false} LookupConcat(a: seq<(string, JVal)>, b: seq<(string, JVal)>, key: string)
    ensures Lookup(a + b, key) == if key in Keys(a) then Lookup(a, key) else Lookup(b, key)
    decreases |a|
  {
    if |a| > 0 {
      assert (a + b)[0] == a[0] && (a + b)[1..] == a[1..] + b;
      assert Keys(a) == [a[0].0] + Keys(a[1..]);
      LookupConcat(a[1..], b, key);
    } else {
      assert a + b == b;
    }
  }

  /** With distinct keys, each entry is what a lookup of its key finds. */
  lemma {:induction false} LookupAt(es: seq<(string, JVal)>, i: nat)
    requires UniqueKeys(es) && i < |es|
    ensures Lookup(es, es[i].0) == Some(es[i].1)
    decreases i
  {
    if i > 0 {
      assert es[0].0 != es[i].0;
      assert es[1..][i - 1] == es[i];
      LookupAt(es[1..], i - 1);
    }
  }

  /** With distinct keys, every entry is what a lookup of its key finds. */
  lemma LookupAll(es: seq<(string, JVal)>)
    requires UniqueKeys(es)
    ensures forall i :: 0 <= i < |es| ==> Lookup(es, es[i].0) == Some(es[i].1)
  {
    forall i | 0 <= i < |es| ensures Lookup(es, es[i].0) == Some(es[i].1) {
      LookupAt(es, i);
    }
  }

  /** The object literal `{ [ks[0]]: vs[0], [ks[1]]: vs[1], ... }`. */
  function Zip(ks: seq<string>, vs: seq<JVal>): (es: seq<(string, JVal)>)
    requires |ks| == |vs|
    ensures |es| == |ks| && Keys(es) == ks
    ensures forall i :: 0 <= i < |ks| ==> es[i] == (ks[i], vs[i])
    ensures Distinct(ks) ==> UniqueKeys(es)
  {
    var es := seq(|ks|, i requires 0 <= i < |ks| => (ks[i], vs[i]));
    assert Keys(es) == ks;
    es
  }

  /** Each key of an object literal with distinct keys reads its own value. */
  lemma ZipLookup(ks: seq<string>, vs: seq<JVal>, i: nat)
    requires |ks| == |vs| && Distinct(ks) && i < |ks|
    ensures Lookup(Zip(ks, vs), ks[i]) == Some(vs[i])
  {
    LookupAt(Zip(ks, vs), i);
  }

  /** The entry list `obj[key] = v` leaves behind. */
  function Assign(es: seq<(string, JVal)>, key: string, v: JVal): seq<(string, JVal)>
    decreases |es|
  {
    if |es| == 0 then [(key, v)]
    else if es[0].0 == key then [(key, v)] + es[1..]
    else [es[0]] + Assign(es[1..], key, v)
  }

  lemma {:induction false} AssignLookup(es: seq<(string, JVal)>, key: string, v: JVal)
    ensures Lookup(Assign(es, key, v), key) == Some(v)
    ensures forall k :: k != key ==> Lookup(Assign(es, key, v), k) == Lookup(es, k)
    decreases |es|
  {
    if |es| > 0 && es[0].0 != key {
      AssignLookup(es[1..], key, v);
    }
  }

  /** `obj[key] = v`: an existing key keeps its place, a new one goes last. */
  function SetKey(es: seq<(string, JVal)>, key: string, v: JVal): (r: seq<(string, JVal)>)
    ensures Lookup(r, key) == Some(v)
    ensures forall k :: k != key ==> Lookup(r, k) == Lookup(es, k)
  {
    AssignLookup(es, key, v);
    Assign(es, key, v)
  }

  /** Assignment keeps the enumeration order: an existing key stays where it
      was and a new key is enumerated last. */
  lemma SetKeyOrder(es: seq<(string, JVal)>, key: string, v: JVal)
    ensures key in Keys(es) ==> Keys(SetKey(es, key, v)) == Keys(es)
    ensures key !in Keys(es) ==> Keys(SetKey(es, key, v)) == Keys(es) + [key]
  {
    AssignOrder(es, key, v);
  }

  lemma {:induction false} AssignOrder(es: seq<(string, JVal)>, key: string, v: JVal)
    ensures key in Keys(es) ==> Keys(Assign(es, key, v)) == Keys(es)
    ensures key !in Keys(es) ==> Keys(Assign(es, key, v)) == Keys(es) + [key]
    decreases |es|
  {
    if |es| > 0 && es[0].0 != key {
      AssignOrder(es[1..], key, v);
      var r := Assign(es, key, v);
      assert r[1..] == Assign(es[1..], key, v);
    } else if |es| > 0 {
      var r := Assign(es, key, v);
      assert r[1..] == es[1..];
    }
  }

  /** Assigning a key a value it already holds changes nothing. */
  lemma SetKeySame(es: seq<(string, JVal)>, key: string, v: JVal)
    requires Lookup(es, key) == Some(v)
    ensures SetKey(es, key, v) == es
  {
    AssignSame(es, key, v);
  }

  lemma {:induction false} AssignSame(es: seq<(string, JVal)>, key: string, v: JVal)
    requires Lookup(es, key) == Some(v)
    ensures Assign(es, key, v) == es
    decreases |es|
  {
    if es[0].0 != key {
      AssignSame(es[1..], key, v);
    }
  }

  /** Assigning a new key appends exactly one entry. */
  lemma SetKeyAppend(es: seq<(string, JVal)>, key: string, v: JVal)
    requires forall i :: 0 <= i < |es| ==> es[i].0 != key
    ensures SetKey(es, key, v) == es + [(key, v)]
  {
    AssignAppend(es, key, v);
  }

  lemma {:induction false} AssignAppend(es: seq<(string, JVal)>, key: string, v: JVal)
    requires forall i :: 0 <= i < |es| ==> es[i].0 != key
    ensures Assign(es, key, v) == es + [(key, v)]
    decreases |es|
  {
    if |es| > 0 {
      var rest := es[1..];
      assert forall i :: 0 <= i < |rest| ==> rest[i] == es[i + 1];
      AssignAppend(rest, key, v);
      assert [es[0]] + (rest + [(key, v)]) == es + [(key, v)];
    }
  }

  /** Assignment never duplicates a key. */
  lemma SetKeyUnique(es: seq<(string, JVal)>, key: string, v: JVal)
    requires UniqueKeys(es)
    ensures UniqueKeys(SetKey(es, key, v))
  {
    AssignUnique(es, key, v);
  }

  lemma AssignUnique(es: seq<(string, JVal)>, key: string, v: JVal)
    requires UniqueKeys(es)
    ensures UniqueKeys(Assign(es, key, v))
  {
    AssignOrder(es, key, v);
    var r := Assign(es, key, v);
    assert forall i :: 0 <= i < |r| ==> r[i].0 == Keys(r)[i];
    assert forall i :: 0 <= i < |es| ==> es[i].0 == Keys(es)[i];
  }

  /** The entry list `{ ...base, ...over }` builds. */
  function Merge(base: seq<(string, JVal)>, over: seq<(string, JVal)>): seq<(string, JVal)>
    decreases |over|
  {
    if |over| == 0 then base
    else Merge(Assign(base, over[0].0, over[0].1), over[1..])
  }

  lemma {:induction false} MergeLookup(base: seq<(string, JVal)>, over: seq<(string, JVal)>)
    ensures forall k :: k !in Keys(over) ==> Lookup(Merge(base, over), k) == Lookup(base, k)
    ensures forall k :: k in Keys(over) ==> Lookup(Merge(base, over), k).Some?
    decreases |over|
  {
    if |over| > 0 {
      var b := Assign(base, over[0].0, over[0].1);
      AssignLookup(base, over[0].0, over[0].1);
      MergeLookup(b, over[1..]);
      assert Keys(over) == [over[0].0] + Keys(over[1..]);
    }
  }

  /** Spreading two lists in a row is spreading their concatenation. */
  lemma {:induction false} MergeConcat(base: seq<(string, JVal)>, a: seq<(string, JVal)>, b: seq<(string, JVal)>)
    ensures Merge(base, a + b) == Merge(Merge(base, a), b)
    decreases |a|
  {
    if |a| > 0 {
      assert (a + b)[0] == a[0] && (a + b)[1..] == a[1..] + b;
      MergeConcat(Assign(base, a[0].0, a[0].1), a[1..], b);
    } else {
      assert a + b == b;
    }
  }

  /** `{ ...base, ...over }`: later entries overwrite earlier ones in place. */
  function Spread(base: seq<(string, JVal)>, over: seq<(string, JVal)>): (r: seq<(string, JVal)>)
    ensures forall k :: k !in Keys(over) ==> Lookup(r, k) == Lookup(base, k)
    ensures forall k :: k in Keys(over) ==> Lookup(r, k).Some?
  {
    MergeLookup(base, over);
    Merge(base, over)
  }

  /** Spreading an object with distinct keys: each of its keys reads back
      the spread value. */
  lemma {:induction false} SpreadOver(base: seq<(string, JVal)>, over: seq<(string, JVal)>, k: string)
    requires UniqueKeys(over) && k in Keys(over)
    ensures Lookup(Spread(base, over), k) == Lookup(over, k)
    decreases |over|
  {
    var b := Assign(base, over[0].0, over[0].1);
    var rest := over[1..];
    assert Keys(over) == [over[0].0] + Keys(rest);
    assert UniqueKeys(rest) by {
      forall i, j | 0 <= i < j < |rest| ensures rest[i].0 != rest[j].0 {
        assert rest[i] == over[i + 1] && rest[j] == over[j + 1];
      }
    }
    if k == over[0].0 {
      assert k !in Keys(rest) by {
        forall i | 0 <= i < |rest| ensures rest[i].0 != k {
          assert rest[i] == over[i + 1];
        }
      }
      MergeLookup(b, rest);
      AssignLookup(base, k, over[0].1);
    } else {
      SpreadOver(b, rest, k);
    }
  }

  /** Spreading one entry: it is found under its key. */
  lemma SpreadOne(base: seq<(string, JVal)>, k: string, v: JVal)
    ensures Lookup(Spread(base, [(k, v)]), k) == Some(v)
  {
    AssignLookup(base, k, v);
    assert [(k, v)][1..] == [];
    assert Spread(base, [(k, v)]) == Merge(Assign(base, k, v), []) == Assign(base, k, v);
  }

  /** Spreading two fresh entries: each is found under its own key. */
  lemma SpreadTwo(base: seq<(string, JVal)>, k1: string, v1: JVal, k2: string, v2: JVal)
    requires k1 != k2
    ensures Lookup(Spread(base, [(k1, v1), (k2, v2)]), k1) == Some(v1)
    ensures Lookup(Spread(base, [(k1, v1), (k2, v2)]), k2) == Some(v2)
  {
    var over := [(k1, v1), (k2, v2)];
    var b := Assign(base, k1, v1);
    AssignLookup(base, k1, v1);
    AssignLookup(b, k2, v2);
    assert over[1..] == [(k2, v2)];
    assert over[1..][1..] == [];
    assert Merge(base, over) == Merge(b, [(k2, v2)]) == Assign(b, k2, v2);
  }

  /** Spreading keeps the keys of the result distinct. */
  lemma SpreadUnique(base: seq<(string, JVal)>, over: seq<(string, JVal)>)
    requires UniqueKeys(base)
    ensures UniqueKeys(Spread(base, over))
  {
    MergeUnique(base, over);
  }

  lemma {:induction false} MergeUnique(base: seq<(string, JVal)>, over: seq<(string, JVal)>)
    requires UniqueKeys(base)
    ensures UniqueKeys(Merge(base, over))
    decreases |over|
  {
    if |over| > 0 {
      AssignUnique(base, over[0].0, over[0].1);
      MergeUnique(Assign(base, over[0].0, over[0].1), over[1..]);
    }
  }

  /** Spreading an object with distinct keys, none of them already present,
      appends its entries in order. */
  lemma SpreadFresh(base: seq<(string, JVal)>, over: seq<(string, JVal)>)
    requires UniqueKeys(over)
    requires forall i, j :: 0 <= i < |over| && 0 <= j < |base| ==> over[i].0 != base[j].0
    ensures Spread(base, over) == base + over
  {
    MergeFresh(base, over);
  }

  lemma {:induction false} MergeFresh(base: seq<(string, JVal)>, over: seq<(string, JVal)>)
    requires UniqueKeys(over)
    requires forall i, j :: 0 <= i < |over| && 0 <= j < |base| ==> over[i].0 != base[j].0
    ensures Merge(base, over) == base + over
    decreases |over|
  {
    if |over| > 0 {
      AssignAppend(base, over[0].0, over[0].1);
      var b := base + [over[0]];
      var rest := over[1..];
      assert forall i :: 0 <= i < |rest| ==> rest[i] == over[i + 1];
      assert forall i, j :: 0 <= i < |rest| && 0 <= j < |b| ==> rest[i].0 != b[j].0 by {
        forall i, j | 0 <= i < |rest| && 0 <= j < |b|
          ensures rest[i].0 != b[j].0
        {
          if j < |base| {
            assert b[j] == base[j];
          } else {
            assert b[j] == over[0];
          }
        }
      }
      MergeFresh(b, rest);
      assert b + rest == base + over;
    }
  }

  /** `Object.entries(v)` of any value: arrays and strings enumerate their
      indices, other primitives nothing. */
  function Entries(v: JVal): (es: seq<(string, JVal)>)
    ensures v.JObj? ==> es == v.entries
    ensures v.JArr? ==> |es| == |v.items|
    ensures !IsObjectLike(v) && !v.JStr? ==> es == []
  {
    match v
    case JObj(es) => es
    case JArr(items) => seq(|items|, i requires 0 <= i < |items| => (NatToString(i), items[i]))
    case JStr(t) => seq(|t|, i requires 0 <= i < |t| => (NatToString(i), JStr([t[i]])))
    case _ => []
  }

  /** Index keys are digits only, so no enumeration of an array or a string
      yields `__proto__`. */
  lemma EntriesNoProto(v: JVal)
    requires !v.JObj?
    ensures ProtoKey !in Keys(Entries(v))
  {
    var ks := Keys(Entries(v));
    forall i | 0 <= i < |ks|
      ensures ks[i] != ProtoKey
    {
      assert ks[i][0] != ProtoKey[0];
    }
  }

  // ---------------------------------------------------------------------------
  // Assignment into a fresh object
  // ---------------------------------------------------------------------------

  /** The one key that an assignment `o[k] = v` into a plain object does
      not store as a property of its own: it sets the object's prototype,
      which neither `Object.entries` nor `JSON.stringify` sees. */
  const ProtoKey: string := "__proto__"

  /** `ks` without the occurrences of `k`, in order. */
  function Omit(ks: seq<string>, k: string): (r: seq<string>)
    ensures forall x :: x in r <==> x in ks && x != k
    ensures k !in ks ==> r == ks
    decreases |ks|
  {
    if |ks| == 0 then []
    else
      assert forall x :: x in ks <==> x == ks[0] || x in ks[1..];
      (if ks[0] == k then [] else [ks[0]]) + Omit(ks[1..], k)
  }

  /** The own properties a run of assignments `out[k] = v` into `{}`
      leaves, one per entry: every entry but a `__proto__` one, in order. */
  function Stored(es: seq<(string, JVal)>): (r: seq<(string, JVal)>)
    ensures Keys(r) == Omit(Keys(es), ProtoKey)
    ensures forall i :: 0 <= i < |r| ==> r[i] in es
    decreases |es|
  {
    if |es| == 0 then []
    else
      var head := if es[0].0 == ProtoKey then [] else [es[0]];
      var rest := Stored(es[1..]);
      assert Keys(es) == [es[0].0] + Keys(es[1..]);
      assert Keys(head + rest) == Keys(head) + Keys(rest);
      assert forall x :: x in es[1..] ==> x in es;
      head + rest
  }

  /** Without a `__proto__` entry, every entry is stored. */
  lemma {:induction false} StoredAll(es: seq<(string, JVal)>)
    requires ProtoKey !in Keys(es)
    ensures Stored(es) == es
    decreases |es|
  {
    if |es| > 0 {
      assert Keys(es) == [es[0].0] + Keys(es[1..]);
      StoredAll(es[1..]);
      assert [es[0]] + es[1..] == es;
    }
  }

  /** Which stored entry an entry of `Stored(es)` came from. */
  lemma StoredFrom(es: seq<(string, JVal)>, i: nat) returns (j: nat)
    requires i < |Stored(es)|
    ensures j < |es| && Stored(es)[i] == es[j]
  {
    var x := Stored(es)[i];
    assert x in es;
    j :| j < |es| && es[j] == x;
  }

  /** Reading the stored properties reads the entries, except that
      `__proto__` is not there. */
  lemma {:induction false} StoredLookup(es: seq<(string, JVal)>, k: string)
    ensures Lookup(Stored(es), k) == if k == ProtoKey then None else Lookup(es, k)
    decreases |es|
  {
    if |es| > 0 {
      var rest := Stored(es[1..]);
      StoredLookup(es[1..], k);
      if es[0].0 == ProtoKey {
        assert Stored(es) == rest;
      } else {
        var r := [es[0]] + rest;
        assert Stored(es) == r;
        assert r[0] == es[0] && r[1..] == rest;
        if es[0].0 != k {
          assert Lookup(r, k) == Lookup(rest, k);
        }
      }
    }
  }

  /** Dropping entries keeps the keys distinct. */
  lemma {:induction false} StoredUnique(es: seq<(string, JVal)>)
    requires UniqueKeys(es)
    ensures UniqueKeys(Stored(es))
    decreases |es|
  {
    if |es| > 0 {
      var rest := Stored(es[1..]);
      UniqueSplit(es);
      StoredUnique(es[1..]);
      if es[0].0 != ProtoKey {
        assert Stored(es) == [es[0]] + rest;
        UniqueCons(es[0], rest);
      }
    }
  }

  /** Distinct keys: the first is not among the others, which are
      distinct. */
  lemma UniqueSplit(es: seq<(string, JVal)>)
    requires |es| > 0 && UniqueKeys(es)
    ensures UniqueKeys(es[1..]) && es[0].0 !in Keys(es[1..])
  {
    var tl := es[1..];
    forall a, b | 0 <= a < b < |tl|
      ensures tl[a].0 != tl[b].0
    {
      assert tl[a] == es[a + 1] && tl[b] == es[b + 1];
    }
    forall b | 0 <= b < |tl|
      ensures Keys(tl)[b] != es[0].0
    {
      assert tl[b] == es[b + 1];
    }
  }

  /** An entry in front of distinct keys that do not include its own. */
  lemma UniqueCons(x: (string, JVal), es: seq<(string, JVal)>)
    requires UniqueKeys(es) && x.0 !in Keys(es)
    ensures UniqueKeys([x] + es)
  {
    var r := [x] + es;
    forall a, b | 0 <= a < b < |r|
      ensures r[a].0 != r[b].0
    {
      if a == 0 {
        assert Keys(es)[b - 1] == r[b].0;
      } else {
        assert r[a] == es[a - 1] && r[b] == es[b - 1];
      }
    }
  }

  // ---------------------------------------------------------------------------
  // Dotted paths
  // ---------------------------------------------------------------------------

  /** `path.split(".").reduce((acc, key) => acc && acc[key] !== undefined ? acc[key] : undefined, obj)`
      with the path already split. */
  function GetByPath(acc: Option<JVal>, keys: seq<string>): Option<JVal>
    decreases |keys|
  {
    if |keys| == 0 then acc
    else GetByPath(if Present(acc) then Get(acc.value, keys[0]) else None, keys[1..])
  }

  /** The dotted-path lookup the validator performs on `data`. */
  function Path(data: JVal, path: string): Option<JVal> {
    GetByPath(Some(data), Split(path, '.'))
  }

  /** The lookup of a path given as its list of keys. */
  function At(data: JVal, keys: seq<string>): Option<JVal> {
    GetByPath(Some(data), keys)
  }

  /** A dotted path spelled from dot-free keys looks up exactly those keys. */
  lemma PathOfKeys(data: JVal, keys: seq<string>)
    requires |keys| >= 1
    requires forall i :: 0 <= i < |keys| ==> '.' !in keys[i]
    ensures Path(data, Join(keys, ".")) == At(data, keys)
  {
    SplitJoin(keys, '.');
  }

  /** Once the walk reaches `undefined`, the rest of the path cannot revive it. */
  lemma {:induction false} GetByPathStaysUndefined(keys: seq<string>)
    ensures GetByPath(None, keys) == None
    decreases |keys|
  {
    if |keys| > 0 {
      GetByPathStaysUndefined(keys[1..]);
    }
  }

  /** A falsy or key-less intermediate value makes the whole lookup `undefined`. */
  lemma GetByPathFalsyPrefix(acc: Option<JVal>, keys: seq<string>, i: nat)
    requires i < |keys|
    requires !Present(GetByPath(acc, keys[..i])) || Get(GetByPath(acc, keys[..i]).value, keys[i]).None?
    ensures GetByPath(acc, keys) == None
  {
    GetByPathSplit(acc, keys[..i], keys[i..]);
    assert keys[..i] + keys[i..] == keys;
    var mid := GetByPath(acc, keys[..i]);
    assert keys[i..][1..] == keys[i + 1..];
    GetByPathStaysUndefined(keys[i + 1..]);
  }

  /** Walking `a + b` is walking `a`, then `b`. */
  lemma {:induction false} GetByPathSplit(acc: Option<JVal>, a: seq<string>, b: seq<string>)
    ensures GetByPath(acc, a + b) == GetByPath(GetByPath(acc, a), b)
    decreases |a|
  {
    if |a| > 0 {
      var next := if Present(acc) then Get(acc.value, a[0]) else None;
      assert (a + b)[0] == a[0];
      assert (a + b)[1..] == a[1..] + b;
      assert GetByPath(acc, a + b) == GetByPath(next, a[1..] + b);
      assert GetByPath(acc, a) == GetByPath(next, a[1..]);
      GetByPathSplit(next, a[1..], b);
    } else {
      assert a + b == b;
    }
  }
}
