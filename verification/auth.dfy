/** The shared-token guard of the export endpoints (`authGuard`): the server
    holds one secret; a request carries it either as `Authorization: Bearer
    <token>` or, as an internal fallback, in `X-Validalex-Token`. The guard
    either returns `true` or throws an error carrying 500, 401 or 403. */
module Auth {
  import opened Wrappers
  import opened Text
  import opened Json
  import opened Draft

  const NoSecretMessage := "VALIDALEX_SHARED_TOKEN não configurado"
  const MissingTokenMessage := "Token ausente"
  const WrongTokenMessage := "Token inválido"

  /** `!expected`: the environment variable is unset or empty. */
  predicate Configured(secret: Option<string>) {
    secret.Some? && secret.value != []
  }

  /** `headers[a] || headers[b] || ""` */
  function HeaderOr(headers: seq<(string, JVal)>, a: string, b: string): (v: JVal)
    ensures Present(Lookup(headers, a)) ==> v == Lookup(headers, a).value
    ensures !Present(Lookup(headers, a)) && Present(Lookup(headers, b)) ==> v == Lookup(headers, b).value
    ensures !Present(Lookup(headers, a)) && !Present(Lookup(headers, b)) ==> v == JStr("")
  {
    Or(Lookup(headers, a), Or(Lookup(headers, b), JStr("")))
  }

  /** `authHeader.toLowerCase().startsWith("bearer ")` for a string header. */
  predicate IsBearer(v: JVal) {
    v.JStr? && StartsWith(Lower(v.str), "bearer ")
  }

  /** The credential read from the two header values: the bearer token when
      `auth` is a bearer header, otherwise the trimmed `x` when that is a
      string, otherwise nothing. */
  function Credential(auth: JVal, x: JVal): (t: string)
    ensures IsTrimmed(t)
  {
    if IsBearer(auth) then
      TrimIsTrimmed(auth.str[7..]);
      Trim(auth.str[7..])
    else if x.JStr? then
      TrimIsTrimmed(x.str);
      Trim(x.str)
    else ""
  }

  /** The token the request presents, read from `Authorization` (either
      capitalisation) and `X-Validalex-Token`. */
  function PresentedToken(headers: seq<(string, JVal)>): (t: string)
    ensures IsTrimmed(t)
  {
    Credential(HeaderOr(headers, "authorization", "Authorization"),
               HeaderOr(headers, "x-validalex-token", "X-Validalex-Token"))
  }

  /** `authGuard(req)`: `None` is the explicit `return true`, `Some(e)` the
      error it throws. The checks run in the source's order: configuration,
      presence, equality. */
  function AuthGuard(secret: Option<string>, headers: seq<(string, JVal)>): (r: Option<Thrown>)
    ensures r.None? <==> Configured(secret) && PresentedToken(headers) == secret.value
    ensures !Configured(secret) ==> r == Some(Thrown(NoSecretMessage, 500))
    ensures Configured(secret) && PresentedToken(headers) == [] ==> r == Some(Thrown(MissingTokenMessage, 401))
    ensures Configured(secret) && PresentedToken(headers) != [] && PresentedToken(headers) != secret.value
            ==> r == Some(Thrown(WrongTokenMessage, 403))
  {
    if !Configured(secret) then Some(Thrown(NoSecretMessage, 500))
    else
      var token := PresentedToken(headers);
      if token == [] then Some(Thrown(MissingTokenMessage, 401))
      else if token != secret.value then Some(Thrown(WrongTokenMessage, 403))
      else None
  }

  /** The guard has exactly four outcomes. */
  lemma AuthGuardOutcomes(secret: Option<string>, headers: seq<(string, JVal)>)
    ensures var r := AuthGuard(secret, headers);
            r.None? || r.value.statusCode == 500 || r.value.statusCode == 401 || r.value.statusCode == 403
    ensures var r := AuthGuard(secret, headers);
            r.Some? && r.value.statusCode == 500 <==> !Configured(secret)
  {
  }

  /** Lower-casing a known prefix: `"Bearer " + t`, in any capitalisation of
      the scheme, is a bearer header whose credential is `t`. */
  lemma BearerPrefix(scheme: string, t: string)
    requires Lower(scheme) == "bearer "
    ensures IsBearer(JStr(scheme + t))
    ensures (scheme + t)[7..] == t
  {
    var s := scheme + t;
    assert |scheme| == 7;
    assert Lower(s)[..7] == Lower(scheme) by {
      forall i | 0 <= i < 7 ensures Lower(s)[i] == Lower(scheme)[i] {
        assert s[i] == scheme[i];
      }
    }
  }

  /** A header list starting with `(k, v)` answers `v` for `k`. */
  lemma LookupFirst(k: string, v: JVal, rest: seq<(string, JVal)>)
    ensures Lookup([(k, v)] + rest, k) == Some(v)
  {
  }

  /** `Bearer <pad><secret>` carries the credential `secret`, whatever the
      fallback header holds. */
  lemma BearerCredential(scheme: string, pad: string, secret: string, x: JVal)
    requires IsTrimmed(secret)
    requires Lower(scheme) == "bearer " && AllWs(pad)
    ensures Credential(JStr(scheme + pad + secret), x) == secret
  {
    assert scheme + pad + secret == scheme + (pad + secret);
    BearerPrefix(scheme, pad + secret);
    TrimPadded(pad, secret, []);
    assert pad + secret + [] == pad + secret;
  }

  /** A request whose `Authorization` header is `Bearer <secret>`, with any
      padding before the secret, is let through; the `X-Validalex-Token`
      header is then ignored. */
  lemma BearerAccepted(secret: string, scheme: string, pad: string, rest: seq<(string, JVal)>)
    requires secret != [] && IsTrimmed(secret)
    requires Lower(scheme) == "bearer " && AllWs(pad)
    ensures AuthGuard(Some(secret), [("authorization", JStr(scheme + pad + secret))] + rest).None?
  {
    var a := JStr(scheme + pad + secret);
    var headers := [("authorization", a)] + rest;
    LookupFirst("authorization", a, rest);
    assert Present(Lookup(headers, "authorization")) by {
      BearerPrefix(scheme, pad + secret);
      assert scheme + pad + secret == scheme + (pad + secret);
    }
    BearerCredential(scheme, pad, secret, HeaderOr(headers, "x-validalex-token", "X-Validalex-Token"));
  }

  /** Only the fallback header is present: neither spelling of the
      `Authorization` name matches it. */
  lemma NoAuthorization(raw: string)
    ensures HeaderOr([("x-validalex-token", JStr(raw))], "authorization", "Authorization") == JStr("")
  {
    var headers := [("x-validalex-token", JStr(raw))];
    assert |"x-validalex-token"| != |"authorization"|;
    assert |"x-validalex-token"| != |"Authorization"|;
    assert Lookup(headers, "authorization") == None;
    assert Lookup(headers, "Authorization") == None;
  }

  /** Without an `Authorization` header, a string `X-Validalex-Token` is the
      credential after trimming. */
  lemma TokenHeaderFallback(raw: string)
    ensures PresentedToken([("x-validalex-token", JStr(raw))]) == Trim(raw)
  {
    var headers := [("x-validalex-token", JStr(raw))];
    NoAuthorization(raw);
    LookupFirst("x-validalex-token", JStr(raw), []);
    assert headers == [("x-validalex-token", JStr(raw))] + [];
    assert HeaderOr(headers, "x-validalex-token", "X-Validalex-Token").JStr?;
  }

  /** A non-bearer `Authorization` header (a `Basic` one, say) does not hide
      the fallback header. */
  lemma OtherSchemeFallsBack(auth: string, raw: string)
    requires !StartsWith(Lower(auth), "bearer ")
    ensures PresentedToken([("authorization", JStr(auth)), ("x-validalex-token", JStr(raw))]) == Trim(raw)
  {
    var headers := [("authorization", JStr(auth)), ("x-validalex-token", JStr(raw))];
    var a := HeaderOr(headers, "authorization", "Authorization");
    assert !IsBearer(a) by {
      LookupFirst("authorization", JStr(auth), headers[1..]);
      assert headers == [("authorization", JStr(auth))] + headers[1..];
    }
    assert Lookup(headers, "x-validalex-token") == Some(JStr(raw)) by {
      assert |"x-validalex-token"| != |"authorization"|;
      assert headers[1..] == [("x-validalex-token", JStr(raw))] + [];
      LookupFirst("x-validalex-token", JStr(raw), []);
    }
    assert HeaderOr(headers, "x-validalex-token", "X-Validalex-Token").JStr?;
  }
}
