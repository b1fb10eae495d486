/** The in-memory fixed-window rate limiter of the export endpoints
    (`rateLimit`). Every key owns a bucket holding the start of its window
    and the number of requests seen in it; a request past the limit inside
    the window is answered 429 and then aborts the handler by throwing. The
    bucket map, which the source keeps in a module-level `Map`, is passed in
    and handed back; the clock reading is a parameter. */
module RateLimit {
  import opened Wrappers
  import opened Text
  import opened Json
  import opened Draft

  const DefaultLimit := 30
  const DefaultWindowMs := 60000
  const TooManyMessage := "Muitas requisições. Tente novamente em alguns instantes."
  const ExceededMessage := "Rate limit exceeded"

  datatype Bucket = Bucket(windowStart: int, count: nat)

  /** What the caller passes in `opts`; `None` or `0` selects the default. */
  datatype Options = Options(limit: Option<int>, windowMs: Option<int>, key: Option<string>)

  /** The parts of the request the key is built from: the
      `X-Forwarded-For` header, the socket's peer address and the URL. */
  datatype Request = Request(forwardedFor: Option<string>, remoteAddress: Option<string>, url: Option<string>)

  /** The two `X-RateLimit-*` headers as numbers. */
  datatype Headers = Headers(remaining: int, reset: int)

  /** The 429 answer written before the throw. */
  datatype Rejection = Rejection(body: seq<(string, JVal)>, error: Thrown)

  datatype Outcome = Outcome(buckets: map<string, Bucket>, headers: Headers, rejection: Option<Rejection>)

  /** `Number(x || d)` for a numeric option. */
  function OrDefault(o: Option<int>, d: int): (n: int)
    ensures o.Some? && o.value != 0 ==> n == o.value
    ensures o.None? || o.value == 0 ==> n == d
  {
    if o.Some? && o.value != 0 then o.value else d
  }

  /** `x || fallback` for a text that may be missing or empty. */
  function TextOr(o: Option<string>, fallback: string): (t: string)
    ensures o.Some? && o.value != [] ==> t == o.value
    ensures o.None? || o.value == [] ==> t == fallback
  {
    if o.Some? && o.value != [] then o.value else fallback
  }

  /** The client address: the first `X-Forwarded-For` entry, trimmed, then
      the socket address, then `"unknown"`. */
  function ClientIp(req: Request): (ip: string)
    ensures ip != []
  {
    var forwarded := if req.forwardedFor.Some? then Some(Trim(Split(req.forwardedFor.value, ',')[0])) else None;
    TextOr(forwarded, TextOr(req.remoteAddress, "unknown"))
  }

  /** `opts.key || `${ip}:${route}``, the bucket a request is counted in. */
  function BucketKey(opts: Options, req: Request): (k: string)
    ensures opts.key.Some? && opts.key.value != [] ==> k == opts.key.value
    ensures opts.key.None? || opts.key.value == [] ==> k == ClientIp(req) + ":" + TextOr(req.url, "unknown")
  {
    TextOr(opts.key, ClientIp(req) + ":" + TextOr(req.url, "unknown"))
  }

  /** A request opens a new window when the key has no bucket or the
      window has run its length. */
  predicate OpensWindow(buckets: map<string, Bucket>, key: string, now: int, windowMs: int) {
    key !in buckets || now - buckets[key].windowStart >= windowMs
  }

  /** The body of the 429 answer. */
  function RejectionBody(resetMs: int): seq<(string, JVal)> {
    [("ok", JBool(false)), ("status", JNum(429.0)), ("error", JStr(TooManyMessage)), ("retryAfterMs", JNum(resetMs as real))]
  }

  /** `setHeaders(res, remaining, resetMs)`: the reset header never goes
      below zero. */
  function SetHeaders(remaining: int, resetMs: int): (h: Headers)
    ensures h.remaining == remaining && h.reset >= 0
    ensures resetMs >= 0 ==> h.reset == resetMs
  {
    Headers(remaining, if resetMs < 0 then 0 else resetMs)
  }

  /** One call of `rateLimit` for the bucket `key` at time `now`. */
  function Step(buckets: map<string, Bucket>, key: string, now: int, limit: int, windowMs: int): (o: Outcome)
    ensures key in o.buckets
    ensures forall k :: k != key ==> (k in o.buckets <==> k in buckets)
    ensures forall k :: k != key && k in buckets ==> o.buckets[k] == buckets[k]
    ensures OpensWindow(buckets, key, now, windowMs) ==> o.buckets[key] == Bucket(now, 1)
    ensures !OpensWindow(buckets, key, now, windowMs)
            ==> o.buckets[key] == Bucket(buckets[key].windowStart, buckets[key].count + 1)
    ensures o.rejection.Some? <==> !OpensWindow(buckets, key, now, windowMs) && o.buckets[key].count > limit
    ensures o.rejection.Some? ==> o.rejection.value.error == Thrown(ExceededMessage, 429) && o.headers.remaining == 0
    ensures o.rejection.None? ==> o.headers.remaining == if OpensWindow(buckets, key, now, windowMs) then limit - 1
                                                      else Max0(limit - o.buckets[key].count)
    ensures o.headers.reset == if OpensWindow(buckets, key, now, windowMs) then Max0(windowMs)
                               else Max0(windowMs - (now - buckets[key].windowStart))
    ensures o.rejection.Some? ==> o.rejection.value.body == RejectionBody(windowMs - (now - buckets[key].windowStart))
  {
    if OpensWindow(buckets, key, now, windowMs) then
      Outcome(buckets[key := Bucket(now, 1)], SetHeaders(limit - 1, windowMs), None)
    else
      var b := buckets[key];
      var count := b.count + 1;
      var resetMs := windowMs - (now - b.windowStart);
      var next := buckets[key := Bucket(b.windowStart, count)];
      if count > limit then
        Outcome(next, SetHeaders(0, resetMs), Some(Rejection(RejectionBody(resetMs), Thrown(ExceededMessage, 429))))
      else
        Outcome(next, SetHeaders(Max0(limit - count), resetMs), None)
  }

  function Max0(n: int): (m: nat)
    ensures m >= n && (n >= 0 ==> m == n)
  {
    if n < 0 then 0 else n
  }

  /** `rateLimit(req, res, opts)` with the options resolved. */
  function RateLimit(buckets: map<string, Bucket>, opts: Options, req: Request, now: int): (o: Outcome)
    ensures BucketKey(opts, req) in o.buckets
    ensures var key := BucketKey(opts, req);
            o.rejection.Some? <==> !OpensWindow(buckets, key, now, OrDefault(opts.windowMs, DefaultWindowMs))
                                   && o.buckets[key].count > OrDefault(opts.limit, DefaultLimit)
  {
    Step(buckets, BucketKey(opts, req), now, OrDefault(opts.limit, DefaultLimit), OrDefault(opts.windowMs, DefaultWindowMs))
  }

  /** A 429 tells the client how long to wait: the rest of the window. */
  lemma RejectionCarriesWait(buckets: map<string, Bucket>, key: string, now: int, limit: int, windowMs: int)
    requires key in buckets && now - buckets[key].windowStart < windowMs
    requires buckets[key].count + 1 > limit
    ensures var o := Step(buckets, key, now, limit, windowMs);
            var wait := windowMs - (now - buckets[key].windowStart);
            o.rejection == Some(Rejection(RejectionBody(wait), Thrown(ExceededMessage, 429)))
            && wait > 0 && o.headers.reset == wait
            && Lookup(o.rejection.value.body, "retryAfterMs") == Some(JNum(wait as real))
  {
    var wait := windowMs - (now - buckets[key].windowStart);
    var body := RejectionBody(wait);
    assert body[0].0 != "retryAfterMs" && body[1].0 != "retryAfterMs" && body[2].0 != "retryAfterMs";
    assert Lookup(body[3..], "retryAfterMs") == Some(JNum(wait as real));
    assert body[2..][1..] == body[3..];
    assert body[1..][1..] == body[2..];
  }

  /** Requests counted in one bucket do not change what another bucket
      decides. */
  lemma KeysDoNotInteract(buckets: map<string, Bucket>, k1: string, t1: int, k2: string, t2: int, limit: int, windowMs: int)
    requires k1 != k2
    ensures var first := Step(buckets, k2, t2, limit, windowMs);
            var o := Step(first.buckets, k1, t1, limit, windowMs);
            var direct := Step(buckets, k1, t1, limit, windowMs);
            o.rejection == direct.rejection && o.headers == direct.headers
            && o.buckets[k1] == direct.buckets[k1]
  {
    var first := Step(buckets, k2, t2, limit, windowMs);
    assert k1 in first.buckets <==> k1 in buckets;
    assert k1 in buckets ==> first.buckets[k1] == buckets[k1];
  }

  /** The rejection flags of successive requests to one bucket. */
  function Burst(buckets: map<string, Bucket>, key: string, times: seq<int>, limit: int, windowMs: int): (flags: seq<bool>)
    ensures |flags| == |times|
    decreases |times|
  {
    if times == [] then []
    else
      var o := Step(buckets, key, times[0], limit, windowMs);
      [o.rejection.Some?] + Burst(o.buckets, key, times[1..], limit, windowMs)
  }

  /** Inside one window a bucket that has already counted `c` requests
      rejects the `i`-th further request exactly when `c + i + 1` passes the
      limit. */
  lemma {:induction false} BurstInsideWindow(buckets: map<string, Bucket>, key: string, times: seq<int>, limit: int, windowMs: int)
    requires key in buckets
    requires forall i :: 0 <= i < |times| ==> times[i] - buckets[key].windowStart < windowMs
    ensures forall i :: 0 <= i < |times| ==> (Burst(buckets, key, times, limit, windowMs)[i] <==> buckets[key].count + i + 1 > limit)
    decreases |times|
  {
    if times != [] {
      var o := Step(buckets, key, times[0], limit, windowMs);
      var rest := Burst(o.buckets, key, times[1..], limit, windowMs);
      assert o.buckets[key].windowStart == buckets[key].windowStart;
      assert forall i :: 0 <= i < |times[1..]| ==> times[1..][i] - o.buckets[key].windowStart < windowMs by {
        forall i | 0 <= i < |times[1..]| ensures times[1..][i] - o.buckets[key].windowStart < windowMs {
          assert times[1..][i] == times[i + 1];
        }
      }
      BurstInsideWindow(o.buckets, key, times[1..], limit, windowMs);
      var flags := Burst(buckets, key, times, limit, windowMs);
      assert flags == [o.rejection.Some?] + rest;
      assert !OpensWindow(buckets, key, times[0], windowMs);
      assert flags[0] <==> buckets[key].count + 1 > limit;
      forall i | 0 <= i < |times| ensures flags[i] <==> buckets[key].count + i + 1 > limit {
        if i > 0 {
          assert flags[i] == rest[i - 1];
        }
      }
    }
  }

  /** A fresh key admits exactly the first `limit` requests of a window:
      request number `i` (counting from zero) is rejected iff `i >= limit`. */
  lemma FreshWindowAdmitsLimit(buckets: map<string, Bucket>, key: string, times: seq<int>, limit: int, windowMs: int)
    requires key !in buckets && limit >= 1 && times != []
    requires forall i :: 0 <= i < |times| ==> times[0] <= times[i] < times[0] + windowMs
    ensures forall i :: 0 <= i < |times| ==> (Burst(buckets, key, times, limit, windowMs)[i] <==> i >= limit)
  {
    var o := Step(buckets, key, times[0], limit, windowMs);
    assert o.buckets[key] == Bucket(times[0], 1);
    assert forall i :: 0 <= i < |times[1..]| ==> times[1..][i] - o.buckets[key].windowStart < windowMs by {
      forall i | 0 <= i < |times[1..]| ensures times[1..][i] - o.buckets[key].windowStart < windowMs {
        assert times[1..][i] == times[i + 1];
      }
    }
    BurstInsideWindow(o.buckets, key, times[1..], limit, windowMs);
    var flags := Burst(buckets, key, times, limit, windowMs);
    var rest := Burst(o.buckets, key, times[1..], limit, windowMs);
    assert flags == [o.rejection.Some?] + rest;
    forall i | 0 <= i < |times| ensures flags[i] <==> i >= limit {
      if i > 0 {
        assert flags[i] == rest[i - 1];
        assert rest[i - 1] <==> o.buckets[key].count + (i - 1) + 1 > limit;
      }
    }
  }
}
