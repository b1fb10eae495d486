/** String primitives of the JavaScript runtime that the backend leans on:
    `trim`, `toLowerCase`, `includes`, `indexOf`, `split`, `join`,
    `replace(/x/g, …)` and the regular-expression classes `\s`, `\d`, `\w`.
    Strings are sequences of Unicode scalar values. */
module Text {

  /** What `\s` matches and what `String.prototype.trim` removes:
      ECMAScript WhiteSpace plus LineTerminator. */
  predicate IsWs(c: char) {
    || c == ' ' || c == '\t' || c == '\n' || c == '\U{000B}' || c == '\U{000C}' || c == '\r'
    || c == '\U{00A0}' || c == '\U{1680}' || ('\U{2000}' <= c <= '\U{200A}')
    || c == '\U{2028}' || c == '\U{2029}' || c == '\U{202F}' || c == '\U{205F}'
    || c == '\U{3000}' || c == '\U{FEFF}'
  }

  /** The characters a regular-expression `.` refuses to match. */
  predicate IsLineTerminator(c: char) {
    c == '\n' || c == '\r' || c == '\U{2028}' || c == '\U{2029}'
  }

  /** `\d` */
  predicate IsDigit(c: char) {
    '0' <= c <= '9'
  }

  /** `\w`, the class behind `\b` */
  predicate IsWordChar(c: char) {
    ('a' <= c <= 'z') || ('A' <= c <= 'Z') || IsDigit(c) || c == '_'
  }

  /** `/^\d{4}-\d{2}-\d{2}$/.test(s)` */
  predicate IsIsoDate(s: string) {
    && |s| == 10
    && IsDigit(s[0]) && IsDigit(s[1]) && IsDigit(s[2]) && IsDigit(s[3])
    && s[4] == '-' && IsDigit(s[5]) && IsDigit(s[6])
    && s[7] == '-' && IsDigit(s[8]) && IsDigit(s[9])
  }

  predicate AllWs(s: string) {
    forall i :: 0 <= i < |s| ==> IsWs(s[i])
  }

  // ---------------------------------------------------------------------------
  // Case
  // ---------------------------------------------------------------------------

  /** Lower-casing of ASCII and Latin-1 capitals, the part of `toLowerCase`
      that the Portuguese text handled here can contain. */
  function LowerChar(c: char): char {
    if 'A' <= c <= 'Z' then (c as int + 32) as char
    else if '\U{00C0}' <= c <= '\U{00DE}' && c != '\U{00D7}' then (c as int + 32) as char
    else c
  }

  function Lower(s: string): (r: string)
    ensures |r| == |s|
    ensures forall i :: 0 <= i < |s| ==> r[i] == LowerChar(s[i])
  {
    seq(|s|, i requires 0 <= i < |s| => LowerChar(s[i]))
  }

  lemma LowerIdempotent(s: string)
    ensures Lower(Lower(s)) == Lower(s)
  {
  }

  // ---------------------------------------------------------------------------
  // Trimming
  // ---------------------------------------------------------------------------

  /** Drops the longest whitespace prefix. */
  function TrimStart(s: string): (r: string)
    ensures |r| <= |s| && r == s[|s| - |r|..]
    ensures forall i :: 0 <= i < |s| - |r| ==> IsWs(s[i])
    ensures r != [] ==> !IsWs(r[0])
    decreases |s|
  {
    if s != [] && IsWs(s[0]) then TrimStart(s[1..]) else s
  }

  /** Drops the longest whitespace suffix. */
  function TrimEnd(s: string): (r: string)
    ensures |r| <= |s| && r == s[..|r|]
    ensures forall i :: |r| <= i < |s| ==> IsWs(s[i])
    ensures r != [] ==> !IsWs(r[|r| - 1])
    decreases |s|
  {
    if s != [] && IsWs(s[|s| - 1]) then TrimEnd(s[..|s| - 1]) else s
  }

  /** `String.prototype.trim` */
  function Trim(s: string): (r: string)
    ensures |r| <= |s|
    ensures r != [] ==> !IsWs(r[0]) && !IsWs(r[|r| - 1])
    ensures AllWs(s) ==> r == []
  {
    TrimEnd(TrimStart(s))
  }

  /** A string that `trim` leaves unchanged. */
  predicate IsTrimmed(s: string) {
    s == [] || (!IsWs(s[0]) && !IsWs(s[|s| - 1]))
  }

  /** `s.trim().length === 0`, written `!s.trim()` in the source. */
  predicate IsBlank(s: string) {
    Trim(s) == []
  }

  lemma TrimmedFixpoint(s: string)
    requires IsTrimmed(s)
    ensures Trim(s) == s
  {
    if s != [] {
      assert TrimStart(s) == s;
    }
  }

  lemma TrimIsTrimmed(s: string)
    ensures IsTrimmed(Trim(s))
  {
  }

  lemma TrimIdempotent(s: string)
    ensures Trim(Trim(s)) == Trim(s)
  {
    TrimIsTrimmed(s);
    TrimmedFixpoint(Trim(s));
  }

  /** Trimming removes whitespace only: what is left is empty exactly when
      every character was whitespace. */
  lemma {:induction false} BlankIffAllWs(s: string)
    ensures IsBlank(s) <==> AllWs(s)
  {
    if IsBlank(s) {
      assert TrimStart(s) == [];
    }
  }

  /** Two trimmed, non-blank texts glued by a whitespace separator stay trimmed. */
  lemma TrimmedGlue(a: string, sep: string, b: string)
    requires IsTrimmed(a) && a != [] && IsTrimmed(b) && b != []
    ensures IsTrimmed(a + sep + b)
  {
    assert (a + sep + b)[0] == a[0];
    assert (a + sep + b)[|a + sep + b| - 1] == b[|b| - 1];
  }

  /** `trim` drops whitespace padding in front of a text that starts with a
      visible character. */
  lemma {:induction false} TrimStartPadded(pad: string, t: string)
    requires AllWs(pad) && (t == [] || !IsWs(t[0]))
    ensures TrimStart(pad + t) == t
    decreases |pad|
  {
    if pad == [] {
      assert pad + t == t;
    } else {
      assert (pad + t)[1..] == pad[1..] + t;
      TrimStartPadded(pad[1..], t);
    }
  }

  /** ... and whitespace padding behind a text that ends with one. */
  lemma {:induction false} TrimEndPadded(t: string, pad: string)
    requires AllWs(pad) && (t == [] || !IsWs(t[|t| - 1]))
    ensures TrimEnd(t + pad) == t
    decreases |pad|
  {
    if pad == [] {
      assert t + pad == t;
    } else {
      var n := |pad| - 1;
      assert (t + pad)[..|t + pad| - 1] == t + pad[..n];
      TrimEndPadded(t, pad[..n]);
    }
  }

  /** Trimming a padded, trimmed text gives the text back. */
  lemma TrimPadded(pad: string, t: string, pad2: string)
    requires AllWs(pad) && AllWs(pad2) && IsTrimmed(t)
    ensures Trim(pad + t + pad2) == t
  {
    if t == [] {
      assert AllWs(pad + t + pad2);
    } else {
      assert pad + t + pad2 == pad + (t + pad2);
      TrimStartPadded(pad, t + pad2);
      TrimEndPadded(t, pad2);
    }
  }

  // ---------------------------------------------------------------------------
  // Searching
  // ---------------------------------------------------------------------------

  predicate StartsWith(s: string, p: string) {
    |p| <= |s| && s[..|p|] == p
  }

  predicate EndsWith(s: string, p: string) {
    |p| <= |s| && s[|s| - |p|..] == p
  }

  /** A text wrapped between `a` and `b` starts with `a`, ends with `b`, and
      is just `a + b` exactly when the middle is empty. */
  lemma Wrapped(a: string, m: string, b: string)
    ensures StartsWith(a + m + b, a) && EndsWith(a + m + b, b)
    ensures a + m + b == a + b <==> m == []
  {
    var h := a + m + b;
    assert h[..|a|] == a;
    assert h[|h| - |b|..] == b;
    if h == a + b {
      assert |h| == |a| + |b|;
    }
  }

  /** `s.includes(p)` */
  predicate Contains(s: string, p: string)
    decreases |s|
  {
    StartsWith(s, p) || (s != [] && Contains(s[1..], p))
  }

  lemma {:induction false} ContainsAt(s: string, p: string, i: nat)
    requires i + |p| <= |s| && s[i..i + |p|] == p
    ensures Contains(s, p)
    decreases i
  {
    if i == 0 {
      assert s[..|p|] == p;
    } else {
      assert s[1..][i - 1..i - 1 + |p|] == p;
      ContainsAt(s[1..], p, i - 1);
    }
  }

  lemma {:induction false} ContainsWitness(s: string, p: string) returns (i: nat)
    requires Contains(s, p)
    ensures i + |p| <= |s| && s[i..i + |p|] == p
    decreases |s|
  {
    if StartsWith(s, p) {
      i := 0;
    } else {
      var j := ContainsWitness(s[1..], p);
      i := j + 1;
      assert s[i..i + |p|] == s[1..][j..j + |p|];
    }
  }

  /** Every character of `p` occurs where `p` does. */
  lemma ContainsChar(s: string, p: string, k: nat)
    requires k < |p|
    ensures Contains(s, p) ==> p[k] in s
  {
    if Contains(s, p) {
      var i := ContainsWitness(s, p);
      assert s[i + k] == s[i..i + |p|][k];
    }
  }

  lemma ContainsInConcat(a: string, s: string, b: string, p: string)
    requires Contains(s, p)
    ensures Contains(a + s + b, p)
  {
    var i := ContainsWitness(s, p);
    assert (a + s + b)[|a| + i..|a| + i + |p|] == s[i..i + |p|];
    ContainsAt(a + s + b, p, |a| + i);
  }

  lemma ContainsSelf(s: string)
    ensures Contains(s, s)
  {
    ContainsAt(s, s, 0);
  }

  /** `Trim(s)` is the slice of `s` that starts at the returned offset. */
  lemma TrimOffset(s: string) returns (d: nat)
    ensures d + |Trim(s)| <= |s| && s[d..d + |Trim(s)|] == Trim(s)
  {
    var ts := TrimStart(s);
    d := |s| - |ts|;
    var t := Trim(s);
    assert t == ts[..|t|];
  }

  lemma TrimContained(s: string)
    ensures Contains(s, Trim(s))
  {
    var d := TrimOffset(s);
    ContainsAt(s, Trim(s), d);
  }

  /** What occurs in a slice occurs in the whole. */
  lemma ContainsInSlice(s: string, a: nat, b: nat, t: string)
    requires a <= b <= |s| && Contains(s[a..b], t)
    ensures Contains(s, t)
  {
    assert s == s[..a] + s[a..b] + s[b..];
    ContainsInConcat(s[..a], s[a..b], s[b..], t);
  }

  /** The trimmed text of a slice occurs in the whole. */
  lemma TrimInside(s: string, a: nat, b: nat)
    requires a <= b <= |s|
    ensures Contains(s, Trim(s[a..b]))
  {
    TrimContained(s[a..b]);
    ContainsInSlice(s, a, b, Trim(s[a..b]));
  }

  /** `p` occurs in `s` at position `i`. */
  predicate OccursAt(s: string, p: string, i: nat) {
    i + |p| <= |s| && s[i..i + |p|] == p
  }

  /** Dropping the first character shifts every occurrence left by one. */
  lemma OccursShift(s: string, p: string)
    requires s != []
    ensures forall j: nat :: OccursAt(s, p, j + 1) == OccursAt(s[1..], p, j)
  {
    forall j: nat
      ensures OccursAt(s, p, j + 1) == OccursAt(s[1..], p, j)
    {
      if j + 1 + |p| <= |s| {
        assert s[1..][j..j + |p|] == s[j + 1..j + 1 + |p|];
      }
    }
  }

  /** `s.indexOf(p)`: the first position where `p` occurs, or -1
      (`IndexOfFirst` proves it). */
  function IndexOf(s: string, p: string): (i: int)
    ensures -1 <= i
    ensures i >= 0 ==> i + |p| <= |s|
    decreases |s|
  {
    if |s| < |p| then -1
    else if s[..|p|] == p then 0
    else
      var k := IndexOf(s[1..], p);
      if k < 0 then -1 else k + 1
  }

  /** `IndexOf` finds the first occurrence, and -1 means there is none. */
  lemma {:induction false} IndexOfFirst(s: string, p: string)
    ensures IndexOf(s, p) >= 0 ==> OccursAt(s, p, IndexOf(s, p))
    ensures forall j: nat :: j < IndexOf(s, p) ==> !OccursAt(s, p, j)
    ensures IndexOf(s, p) < 0 ==> forall j: nat :: !OccursAt(s, p, j)
    decreases |s|
  {
    if |s| >= |p| && s[..|p|] != p {
      IndexOfFirst(s[1..], p);
      OccursShift(s, p);
      assert !OccursAt(s, p, 0);
      assert forall j: nat :: j > 0 ==> OccursAt(s, p, j) == OccursAt(s[1..], p, j - 1);
    }
  }

  /** The first occurrence is the one with no occurrence before it. */
  lemma IndexOfIs(s: string, p: string, i: nat)
    requires OccursAt(s, p, i)
    requires forall j: nat :: j < i ==> !OccursAt(s, p, j)
    ensures IndexOf(s, p) == i
  {
    IndexOfFirst(s, p);
  }

  /** Case-insensitive `includes`, the shape of a `/word/i` test. */
  predicate ContainsCi(s: string, p: string) {
    Contains(Lower(s), Lower(p))
  }

  /** `s.indexOf(c)`: the first position of `c`, or -1. */
  function IndexOfChar(s: string, c: char): (i: int)
    ensures -1 <= i < |s|
    ensures i == -1 <==> c !in s
    ensures i >= 0 ==> s[i] == c && c !in s[..i]
    decreases |s|
  {
    if s == [] then -1
    else if s[0] == c then 0
    else
      var j := IndexOfChar(s[1..], c);
      if j < 0 then -1
      else
        assert s[..j + 1] == [s[0]] + s[1..][..j];
        j + 1
  }

  /** `s.lastIndexOf(c)`: the last position of `c`, or -1. */
  function LastIndexOfChar(s: string, c: char): (i: int)
    ensures -1 <= i < |s|
    ensures i == -1 <==> c !in s
    ensures i >= 0 ==> s[i] == c && c !in s[i + 1..]
    decreases |s|
  {
    if s == [] then -1
    else if s[|s| - 1] == c then |s| - 1
    else
      var init := s[..|s| - 1];
      var j := LastIndexOfChar(init, c);
      assert s == init + [s[|s| - 1]];
      assert j >= 0 ==> s[j + 1..] == init[j + 1..] + [s[|s| - 1]];
      j
  }

  // ---------------------------------------------------------------------------
  // Rewriting, splitting and joining
  // ---------------------------------------------------------------------------

  /** `s.replace(/c/g, rep)` for a one-character pattern. */
  function ReplaceChar(s: string, c: char, rep: string): (r: string)
    ensures c !in rep ==> c !in r
    ensures c !in s ==> r == s
    decreases |s|
  {
    if s == [] then []
    else (if s[0] == c then rep else [s[0]]) + ReplaceChar(s[1..], c, rep)
  }

  /** Replacing brings in no character that is neither in the text nor in
      the replacement. */
  lemma {:induction false} ReplaceCharKeepsOut(s: string, c: char, rep: string, y: char)
    requires y !in s && y !in rep
    ensures y !in ReplaceChar(s, c, rep)
    decreases |s|
  {
    if s != [] {
      assert y !in s[1..] by {
        assert forall k :: 0 <= k < |s[1..]| ==> s[1..][k] == s[k + 1];
      }
      ReplaceCharKeepsOut(s[1..], c, rep, y);
    }
  }

  /** `parts.join(sep)` */
  function Join(parts: seq<string>, sep: string): string
    decreases |parts|
  {
    if |parts| == 0 then []
    else if |parts| == 1 then parts[0]
    else parts[0] + sep + Join(parts[1..], sep)
  }

  /** `s.split(sep)` for a one-character separator: `split` undone by `join`. */
  function Split(s: string, sep: char): (parts: seq<string>)
    ensures |parts| >= 1
    ensures forall i :: 0 <= i < |parts| ==> sep !in parts[i]
    ensures Join(parts, [sep]) == s
    decreases |s|
  {
    var i := IndexOfChar(s, sep);
    if i < 0 then [s]
    else
      var rest := Split(s[i + 1..], sep);
      assert s == s[..i] + [sep] + s[i + 1..];
      [s[..i]] + rest
  }

  /** The other half of the round trip: joining pieces free of the separator
      and splitting again gives the pieces back. */
  lemma {:induction false} SplitJoin(parts: seq<string>, sep: char)
    requires |parts| >= 1
    requires forall i :: 0 <= i < |parts| ==> sep !in parts[i]
    ensures Split(Join(parts, [sep]), sep) == parts
    decreases |parts|
  {
    var s := Join(parts, [sep]);
    if |parts| == 1 {
      assert IndexOfChar(s, sep) == -1;
    } else {
      var tail := Join(parts[1..], [sep]);
      assert s == parts[0] + [sep] + tail;
      assert s[..|parts[0]|] == parts[0];
      assert s[|parts[0]|] == sep;
      assert IndexOfChar(s, sep) == |parts[0]|;
      assert s[|parts[0]| + 1..] == tail;
      SplitJoin(parts[1..], sep);
    }
  }

  /** Every part is named in the joined text. */
  lemma {:induction false} JoinContains(parts: seq<string>, sep: string, i: nat)
    requires i < |parts|
    ensures Contains(Join(parts, sep), parts[i])
    decreases |parts|
  {
    if |parts| == 1 {
      ContainsSelf(parts[0]);
    } else if i == 0 {
      ContainsSelf(parts[0]);
      ContainsInConcat([], parts[0], sep + Join(parts[1..], sep), parts[0]);
      assert [] + parts[0] + (sep + Join(parts[1..], sep)) == Join(parts, sep);
    } else {
      JoinContains(parts[1..], sep, i - 1);
      ContainsInConcat(parts[0] + sep, Join(parts[1..], sep), [], parts[i]);
      assert parts[0] + sep + Join(parts[1..], sep) + [] == Join(parts, sep);
    }
  }

  /** `parts.join("")` */
  function Concat(parts: seq<string>): string
    decreases |parts|
  {
    if |parts| == 0 then [] else parts[0] + Concat(parts[1..])
  }

  /** The concatenation is empty exactly when every part is. */
  lemma {:induction false} ConcatEmpty(parts: seq<string>)
    ensures Concat(parts) == [] <==> forall i :: 0 <= i < |parts| ==> parts[i] == []
    decreases |parts|
  {
    if |parts| > 0 {
      ConcatEmpty(parts[1..]);
      assert forall i :: 1 <= i < |parts| ==> parts[1..][i - 1] == parts[i];
    }
  }

  /** Every part occurs in the concatenation. */
  lemma {:induction false} ConcatContains(parts: seq<string>, i: nat)
    requires i < |parts|
    ensures Contains(Concat(parts), parts[i])
    decreases |parts|
  {
    var tail := Concat(parts[1..]);
    if i == 0 {
      ContainsSelf(parts[0]);
      ContainsInConcat([], parts[0], tail, parts[0]);
      assert [] + parts[0] + tail == Concat(parts);
    } else {
      assert parts[1..][i - 1] == parts[i];
      ConcatContains(parts[1..], i - 1);
      ContainsInConcat(parts[0], tail, [], parts[i]);
      assert parts[0] + tail + [] == Concat(parts);
    }
  }

  // ---------------------------------------------------------------------------
  // Lists
  // ---------------------------------------------------------------------------

  /** No element occurs twice. */
  predicate Distinct<T(==)>(xs: seq<T>) {
    forall i, j :: 0 <= i < j < |xs| ==> xs[i] != xs[j]
  }

  /** `xs.indexOf(x)` for an element that occurs. */
  function FirstIndex<T(==)>(xs: seq<T>, x: T): (i: nat)
    requires x in xs
    ensures i < |xs| && xs[i] == x && x !in xs[..i]
    decreases |xs|
  {
    if xs[0] == x then 0
    else
      var j := FirstIndex(xs[1..], x);
      assert xs[..j + 1] == [xs[0]] + xs[1..][..j];
      j + 1
  }

  /** `parts.map(p => p.trim())` */
  function TrimEach(ps: seq<string>): (qs: seq<string>)
    ensures |qs| == |ps|
    ensures forall k :: 0 <= k < |ps| ==> qs[k] == Trim(ps[k]) && IsTrimmed(qs[k])
  {
    TrimAllTrimmed(ps);
    seq(|ps|, k requires 0 <= k < |ps| => Trim(ps[k]))
  }

  lemma TrimAllTrimmed(ps: seq<string>)
    ensures forall k :: 0 <= k < |ps| ==> IsTrimmed(Trim(ps[k]))
  {
    forall k | 0 <= k < |ps| ensures IsTrimmed(Trim(ps[k])) {
      TrimIsTrimmed(ps[k]);
    }
  }

  /** Trimming texts that are already trimmed changes nothing. */
  lemma TrimEachTrimmed(ps: seq<string>)
    requires forall k :: 0 <= k < |ps| ==> IsTrimmed(ps[k])
    ensures TrimEach(ps) == ps
  {
    forall k | 0 <= k < |ps| ensures Trim(ps[k]) == ps[k] {
      TrimmedFixpoint(ps[k]);
    }
  }

  /** `parts.filter(Boolean)` */
  function NonEmpty(ps: seq<string>): (qs: seq<string>)
    ensures |qs| <= |ps|
    ensures forall q :: q in qs ==> q in ps && q != []
    ensures (forall k :: 0 <= k < |ps| ==> ps[k] != []) ==> qs == ps
    decreases |ps|
  {
    if |ps| == 0 then []
    else (if ps[0] != [] then [ps[0]] else []) + NonEmpty(ps[1..])
  }

  /** `s.length > max ? s.slice(0, max) + ellipsis : s`, the truncation the
      backend applies to prompt fields, model output and log strings. */
  function Clip(s: string, max: nat, ellipsis: string): (r: string)
    ensures |s| <= max ==> r == s
    ensures |s| > max ==> |r| == max + |ellipsis| && r[..max] == s[..max] && r[max..] == ellipsis
  {
    if |s| > max then s[..max] + ellipsis else s
  }

  /** Clipping a clipped text again changes nothing, whatever the
      ellipsis. */
  lemma ClipIdempotent(s: string, max: nat, ellipsis: string)
    ensures Clip(Clip(s, max, ellipsis), max, ellipsis) == Clip(s, max, ellipsis)
  {
    var r := Clip(s, max, ellipsis);
    if |s| > max && ellipsis != [] {
      assert |r| == max + |ellipsis|;
      assert r[..max] + ellipsis == r;
    }
  }

  // ---------------------------------------------------------------------------
  // Numbers as text
  // ---------------------------------------------------------------------------

  function DigitChar(d: nat): char
    requires d < 10
  {
    ('0' as int + d) as char
  }

  /** `String(n)` for a natural number: its decimal digits. */
  function NatToString(n: nat): (r: string)
    ensures |r| >= 1
    ensures forall i :: 0 <= i < |r| ==> IsDigit(r[i])
    ensures n < 10 ==> |r| == 1
    decreases n
  {
    if n < 10 then [DigitChar(n)] else NatToString(n / 10) + [DigitChar(n % 10)]
  }
}
