/** The asynchronous draft flow: the start endpoint records a job, the
    background run moves it from `queued` through `running` to `done` or
    `error`, and the status endpoint maps the stored record to a reply. The
    blob store is a map from job id to the stored record; the clock, the
    job id generator and the generation pipeline are parameters. */
module Jobs {
  import opened Wrappers
  import opened Text
  import opened Json
  import opened Draft
  import opened Validate
  import Assemble
  import Handler

  /** A stored job record, one field per key the flow writes; `None` is a
      key the record does not have. */
  datatype Job = Job(
    ok: Option<JVal>,
    status: Option<JVal>,
    createdAt: Option<JVal>,
    updatedAt: Option<JVal>,
    payload: Option<JVal>,
    result: Option<JVal>,
    error: Option<JVal>,
    meta: Option<JVal>)

  /** `{}` */
  const NoJob: Job := Job(None, None, None, None, None, None, None, None)

  /** The stored job records, by job id. */
  type Store = map<string, Job>

  /** What an endpoint sends: the CORS preflight answer, the 405 answer, or
      a status with a JSON object. */
  datatype Answer = Preflight | NotAllowed | Send(status: int, body: seq<(string, JVal)>)

  /** The store after a call, with the answer sent. */
  datatype Outcome = Outcome(store: Store, answer: Answer)

  // ---------------------------------------------------------------------------
  // The store
  // ---------------------------------------------------------------------------

  /** `readJob(id)`: `None` is the `null` of a job never written. */
  function ReadJob(store: Store, id: string): (j: Option<Job>)
    ensures j.Some? <==> id in store
    ensures j.Some? ==> j.value == store[id]
  {
    if id in store then Some(store[id]) else None
  }

  /** `writeJob(id, record)`: the record replaces whatever was stored. */
  function WriteJob(store: Store, id: string, j: Job): (s: Store)
    ensures s.Keys == store.Keys + {id} && s[id] == j
    ensures forall k :: k in store && k != id ==> s[k] == store[k]
  {
    store[id := j]
  }

  /** A key the patch has overrides the stored one. */
  function Over(stored: Option<JVal>, patched: Option<JVal>): Option<JVal> {
    if patched.Some? then patched else stored
  }

  /** `{ ...cur, ...patch }` on records; `PatchIsSpread` relates it to the
      object spread. */
  function Patch(cur: Job, p: Job): Job {
    Job(Over(cur.ok, p.ok), Over(cur.status, p.status), Over(cur.createdAt, p.createdAt),
        Over(cur.updatedAt, p.updatedAt), Over(cur.payload, p.payload), Over(cur.result, p.result),
        Over(cur.error, p.error), Over(cur.meta, p.meta))
  }

  /** `patchJob(id, patch)`: the stored record (or `{}`) with the patch
      spread over it, written back; no other job is touched. */
  function PatchJob(store: Store, id: string, p: Job): (s: Store)
    ensures s.Keys == store.Keys + {id}
    ensures forall k :: k in store && k != id ==> s[k] == store[k]
    ensures s[id] == Patch(ReadJob(store, id).GetOr(NoJob), p)
  {
    WriteJob(store, id, Patch(ReadJob(store, id).GetOr(NoJob), p))
  }

  // ---------------------------------------------------------------------------
  // Records as the JSON objects the store holds
  // ---------------------------------------------------------------------------

  /** The keys of a record, in the order the flow first writes them. */
  const JobKeys: seq<string> := ["ok", "status", "createdAt", "updatedAt", "payload", "result", "error", "meta"]

  lemma JobKeysDistinct()
    ensures Distinct(JobKeys)
  {
  }

  /** A record as its keys paired with their (possibly absent) values. */
  function Fields(j: Job): (fs: seq<(string, Option<JVal>)>)
    ensures |fs| == |JobKeys| && forall i :: 0 <= i < |fs| ==> fs[i].0 == JobKeys[i]
  {
    [("ok", j.ok), ("status", j.status), ("createdAt", j.createdAt), ("updatedAt", j.updatedAt),
     ("payload", j.payload), ("result", j.result), ("error", j.error), ("meta", j.meta)]
  }

  /** The value paired with `key`, first pair first. */
  function FieldIn(fs: seq<(string, Option<JVal>)>, key: string): Option<JVal>
    decreases |fs|
  {
    if |fs| == 0 then None
    else if fs[0].0 == key then fs[0].1
    else FieldIn(fs[1..], key)
  }

  /** The value of a record under `key`. */
  function Field(j: Job, key: string): Option<JVal> {
    FieldIn(Fields(j), key)
  }

  /** `{ key: o }` when `o` is defined, `{}` otherwise. */
  function Opt(key: string, o: Option<JVal>): seq<(string, JVal)> {
    if o.Some? then [(key, o.value)] else []
  }

  /** The object of the defined pairs. */
  function Flat(fs: seq<(string, Option<JVal>)>): seq<(string, JVal)>
    decreases |fs|
  {
    if |fs| == 0 then [] else Opt(fs[0].0, fs[0].1) + Flat(fs[1..])
  }

  /** A record as the JSON object stored for it. */
  function JobEntries(j: Job): seq<(string, JVal)> {
    Flat(Fields(j))
  }

  predicate DistinctKeys(fs: seq<(string, Option<JVal>)>) {
    forall i, j :: 0 <= i < j < |fs| ==> fs[i].0 != fs[j].0
  }

  lemma FieldsDistinct(j: Job)
    ensures DistinctKeys(Fields(j))
  {
    JobKeysDistinct();
  }

  lemma {:induction false} FieldInAbsent(fs: seq<(string, Option<JVal>)>, key: string)
    requires forall i :: 0 <= i < |fs| ==> fs[i].0 != key
    ensures FieldIn(fs, key) == None
    decreases |fs|
  {
    if |fs| > 0 {
      FieldInAbsent(fs[1..], key);
    }
  }

  lemma DistinctTail(fs: seq<(string, Option<JVal>)>)
    requires |fs| > 0 && DistinctKeys(fs)
    ensures DistinctKeys(fs[1..])
    ensures forall i :: 0 <= i < |fs[1..]| ==> fs[1..][i].0 != fs[0].0
  {
    forall i, j | 0 <= i < j < |fs[1..]| ensures fs[1..][i].0 != fs[1..][j].0 {
      assert fs[1..][i] == fs[i + 1] && fs[1..][j] == fs[j + 1];
    }
    forall i | 0 <= i < |fs[1..]| ensures fs[1..][i].0 != fs[0].0 {
      assert fs[1..][i] == fs[i + 1];
    }
  }

  /** Reading a key of the object is reading the pair of that key. */
  lemma {:induction false} FlatLookup(fs: seq<(string, Option<JVal>)>, key: string)
    requires DistinctKeys(fs)
    ensures Lookup(Flat(fs), key) == FieldIn(fs, key)
    decreases |fs|
  {
    if |fs| > 0 {
      DistinctTail(fs);
      FlatLookup(fs[1..], key);
      LookupConcat(Opt(fs[0].0, fs[0].1), Flat(fs[1..]), key);
      if fs[0].0 == key && fs[0].1.None? {
        FieldInAbsent(fs[1..], key);
      }
    }
  }

  /** Spreading the object of some pairs over `base`: each key reads its
      pair's value when that is defined and `base`'s otherwise. */
  lemma {:induction false} MergeFlat(base: seq<(string, JVal)>, fs: seq<(string, Option<JVal>)>, key: string)
    requires DistinctKeys(fs)
    ensures Lookup(Merge(base, Flat(fs)), key) == Over(Lookup(base, key), FieldIn(fs, key))
    decreases |fs|
  {
    if |fs| > 0 {
      var head := Opt(fs[0].0, fs[0].1);
      MergeConcat(base, head, Flat(fs[1..]));
      var b := Merge(base, head);
      DistinctTail(fs);
      MergeFlat(b, fs[1..], key);
      if fs[0].1.Some? {
        assert head[1..] == [];
        AssignLookup(base, fs[0].0, fs[0].1.value);
      }
      if fs[0].0 == key {
        FieldInAbsent(fs[1..], key);
      }
    }
  }

  /** Pairing two records key by key with `Over` is patching them. */
  lemma {:induction false} FieldInOver(a: seq<(string, Option<JVal>)>, b: seq<(string, Option<JVal>)>,
                                      c: seq<(string, Option<JVal>)>, key: string)
    requires |a| == |b| == |c|
    requires forall i :: 0 <= i < |a| ==> a[i].0 == b[i].0 == c[i].0 && c[i].1 == Over(a[i].1, b[i].1)
    ensures FieldIn(c, key) == Over(FieldIn(a, key), FieldIn(b, key))
    decreases |a|
  {
    if |a| > 0 {
      FieldInOver(a[1..], b[1..], c[1..], key);
    }
  }

  /** Spreading the object of `b`'s pairs over the object of `a`'s reads,
      at every key, what the pairwise `Over` of `a` and `b` reads. */
  lemma SpreadFlat(a: seq<(string, Option<JVal>)>, b: seq<(string, Option<JVal>)>,
                   c: seq<(string, Option<JVal>)>, key: string)
    requires DistinctKeys(a) && DistinctKeys(b) && DistinctKeys(c)
    requires |a| == |b| == |c|
    requires forall i :: 0 <= i < |a| ==> a[i].0 == b[i].0 == c[i].0 && c[i].1 == Over(a[i].1, b[i].1)
    ensures Lookup(Flat(c), key) == Lookup(Spread(Flat(a), Flat(b)), key)
  {
    FlatLookup(c, key);
    FlatLookup(a, key);
    MergeFlat(Flat(a), b, key);
    FieldInOver(a, b, c, key);
  }

  /** The record patch is the object spread `{ ...cur, ...patch }` of the
      stored objects: every key reads the same in both. */
  lemma PatchIsSpread(cur: Job, p: Job, key: string)
    ensures Lookup(JobEntries(Patch(cur, p)), key) == Lookup(Spread(JobEntries(cur), JobEntries(p)), key)
  {
    var a, b, c := Fields(cur), Fields(p), Fields(Patch(cur, p));
    FieldsDistinct(cur);
    FieldsDistinct(p);
    FieldsDistinct(Patch(cur, p));
    assert forall i :: 0 <= i < |a| ==> a[i].0 == b[i].0 == c[i].0 && c[i].1 == Over(a[i].1, b[i].1);
    SpreadFlat(a, b, c, key);
  }

  // ---------------------------------------------------------------------------
  // Job records
  // ---------------------------------------------------------------------------

  /** `{ stage: "validate" }`, the meta of an invalid job's result. */
  const ValidateStage: seq<(string, JVal)> := [("stage", JStr("validate"))]

  /** The record the start endpoint writes for a payload validated to `v`:
      an invalid payload is a finished, not-ok job carrying the validation
      envelope and no payload; a valid one is a queued job carrying the
      payload. Both are created and updated now. */
  function StartRecord(now: real, payload: JVal, v: Validation): (j: Job)
    ensures j.status == Some(JStr(if v.ok then "queued" else "done"))
    ensures j.ok == Some(JBool(v.ok))
    ensures j.createdAt == Some(JNum(now)) && j.updatedAt == Some(JNum(now))
    ensures j.payload == if v.ok then Some(payload) else None
    ensures j.result == if v.ok then None else Some(ReplyToJson(Handler.ValidationReply(v, ValidateStage)))
    ensures j.error == None && j.meta == None
  {
    if v.ok then Job(Some(JBool(true)), Some(JStr("queued")), Some(JNum(now)), Some(JNum(now)), Some(payload), None, None, None)
    else Job(Some(JBool(false)), Some(JStr("done")), Some(JNum(now)), Some(JNum(now)), None,
             Some(ReplyToJson(Handler.ValidationReply(v, ValidateStage))), None, None)
  }

  /** The patch that marks a job as picked up. */
  function RunningPatch(now: real): Job {
    Job(None, Some(JStr("running")), None, Some(JNum(now)), None, None, None, Some(JObj([("stage", JStr("running"))])))
  }

  /** `{ message, status }` of a failed run. */
  function ErrorInfo(message: string, status: int): (v: JVal)
    ensures Get(v, "message") == Some(JStr(message))
    ensures Get(v, "status") == Some(JNum(status as real))
  {
    JObj([("message", JStr(message)), ("status", JNum(status as real))])
  }

  /** The patch of a failed run: the thrown message and status (500 without
      one) and the degraded envelope as its result. */
  function ErrorPatch(now: real, e: Thrown, ms: real): Job {
    Job(None, Some(JStr("error")), None, Some(JNum(now)), None,
        Some(ReplyToJson(ErrorReply(MessageOf(e), Handler.StageMeta("handler", ms)))),
        Some(ErrorInfo(MessageOf(e), StatusOf(e))), None)
  }

  // ---------------------------------------------------------------------------
  // Start
  // ---------------------------------------------------------------------------

  const StatusPath: string := "/api/draft/cobrancaStatus?jobId="

  /** The 202 answer naming the job and where to poll it. */
  function Accepted(id: string): (b: seq<(string, JVal)>)
    ensures Lookup(b, "ok") == Some(JBool(true)) && Lookup(b, "jobId") == Some(JStr(id))
    ensures Lookup(b, "statusUrl") == Some(JStr(StatusPath + id))
  {
    [("ok", JBool(true)), ("jobId", JStr(id)), ("statusUrl", JStr(StatusPath + id))]
  }

  const StartErrorKeys: seq<string> := ["ok", "status", "code", "error", "details"]

  /** The start endpoint's catch block, `sendError(res, 500, "START_ERR",
      …, msg)`: always 500, with the thrown message as `details` (never
      empty, so always present). */
  function StartFailed(e: Thrown): (a: Answer)
    ensures a.Send? && a.status == 500
    ensures Lookup(a.body, "ok") == Some(JBool(false))
    ensures Lookup(a.body, "code") == Some(JStr("START_ERR"))
    ensures Lookup(a.body, "details") == Some(JStr(MessageOf(e)))
  {
    var vs := [JBool(false), JNum(500.0), JStr("START_ERR"), JStr("Falha ao iniciar o rascunho."), JStr(MessageOf(e))];
    assert Distinct(StartErrorKeys);
    ZipLookup(StartErrorKeys, vs, 0);
    ZipLookup(StartErrorKeys, vs, 2);
    ZipLookup(StartErrorKeys, vs, 4);
    Send(500, Zip(StartErrorKeys, vs))
  }

  /** The start endpoint after admission and authentication, with the
      payload validated to `v`: the job is recorded under `id`, nothing
      else is touched, and the answer is 202 either way. */
  function StartPost(store: Store, id: string, now: real, payload: JVal, v: Validation): (o: Outcome)
    ensures o.answer == Send(202, Accepted(id))
    ensures o.store.Keys == store.Keys + {id} && o.store[id] == StartRecord(now, payload, v)
    ensures forall k :: k in store && k != id ==> o.store[k] == store[k]
  {
    Outcome(WriteJob(store, id, StartRecord(now, payload, v)), Send(202, Accepted(id)))
  }

  /** The start endpoint, once admitted by the rate limiter: OPTIONS is the
      preflight, any verb but POST is refused, a failed token check is
      answered 500, and otherwise the payload (an empty object when the
      body is absent) is validated without a schema and recorded under the
      fresh `id`. */
  function Start(c: Coercion, verb: string, guard: Option<Thrown>, body: Option<JVal>,
                 store: Store, id: string, now: real): (o: Outcome)
    ensures verb == "OPTIONS" ==> o == Outcome(store, Preflight)
    ensures verb != "OPTIONS" && verb != "POST" ==> o == Outcome(store, NotAllowed)
    ensures verb == "POST" && guard.Some? ==> o == Outcome(store, StartFailed(guard.value))
    ensures verb == "POST" && guard.None? ==>
              o == StartPost(store, id, now, Handler.PayloadOf(body), Handler.CheckInput(c, Handler.PayloadOf(body)))
  {
    if verb == "OPTIONS" then Outcome(store, Preflight)
    else if verb != "POST" then Outcome(store, NotAllowed)
    else if guard.Some? then Outcome(store, StartFailed(guard.value))
    else StartPost(store, id, now, Handler.PayloadOf(body), Handler.CheckInput(c, Handler.PayloadOf(body)))
  }

  /** The start endpoint as written: the rate limiter is called with the
      options in the place of the response, so it returns nothing when it
      admits and fails on the missing `setHeader` when it refuses; either
      way the handler then fails (reading `.ok` of nothing, or the limiter's
      own error), before authentication and before anything is stored.
      `failure` is the engine's error for whichever of the two happened. */
  function StartAsWritten(c: Coercion, verb: string, guard: Option<Thrown>, body: Option<JVal>,
                          store: Store, id: string, now: real, failure: Thrown): (o: Outcome)
    ensures verb == "POST" ==> o == Outcome(store, StartFailed(failure))
    ensures verb != "POST" ==> o == Start(c, verb, guard, body, store, id, now)
  {
    if verb == "OPTIONS" then Outcome(store, Preflight)
    else if verb != "POST" then Outcome(store, NotAllowed)
    else Outcome(store, StartFailed(failure))
  }

  /** As written, a valid payload with a good token is never started: the
      answer is 500 and no job is recorded, where the evident intent is a
      202 and a queued job carrying the payload. */
  lemma StartAsWrittenNeverStarts(c: Coercion, body: Option<JVal>, store: Store, id: string, now: real, failure: Thrown)
    requires id !in store
    requires Handler.CheckInput(c, Handler.PayloadOf(body)).ok
    ensures StartAsWritten(c, "POST", None, body, store, id, now, failure).answer.status == 500
    ensures id !in StartAsWritten(c, "POST", None, body, store, id, now, failure).store
    ensures Start(c, "POST", None, body, store, id, now).answer.status == 202
    ensures Start(c, "POST", None, body, store, id, now).store[id].status == Some(JStr("queued"))
    ensures Start(c, "POST", None, body, store, id, now).store[id].payload == Some(Handler.PayloadOf(body))
  {
  }

  // ---------------------------------------------------------------------------
  // Run
  // ---------------------------------------------------------------------------

  /** The first step of `runJob`: the stored record marked `running`; the
      creation time and the payload are kept. */
  function MarkRunning(store: Store, id: string, now: real): (s: Store)
    ensures s.Keys == store.Keys + {id}
    ensures forall k :: k in store && k != id ==> s[k] == store[k]
    ensures s[id].status == Some(JStr("running")) && s[id].updatedAt == Some(JNum(now))
    ensures id in store ==> s[id].payload == store[id].payload && s[id].createdAt == store[id].createdAt
    ensures id !in store ==> s[id].payload == None
  {
    PatchJob(store, id, RunningPatch(now))
  }

  /** What the run makes of the running record's payload: the parsed model
      reply, or the error thrown on the way; a missing payload throws
      before the pipeline runs. */
  function Generate(payload: Option<JVal>, pipeline: Handler.Pipeline): (r: Result<JVal, Thrown>)
    ensures !Present(payload) ==> r == Failure(Thrown("Job payload ausente", 0))
    ensures Present(payload) ==> r == pipeline(payload.value)
  {
    if !Present(payload) then Failure(Thrown("Job payload ausente", 0)) else pipeline(payload.value)
  }

  /** The record of a successful run, written whole: done and ok, the stored
      creation time (the current one when there is none), the assembled
      reply with the elapsed time as its result, and no payload. */
  function SuccessRecord(c: Coercion, running: Job, payload: JVal, parsed: JVal, now: real, ms: real): (j: Job)
    ensures j.status == Some(JStr("done")) && j.ok == Some(JBool(true)) && j.payload == None
    ensures j.createdAt == Some(Or(running.createdAt, JNum(now))) && j.updatedAt == Some(JNum(now))
    ensures j.result == Some(ReplyToJson(Handler.SuccessReply(Assemble.Assemble(c, Some(parsed), Some(payload)), ms)))
  {
    Job(Some(JBool(true)), Some(JStr("done")), Some(Or(running.createdAt, JNum(now))), Some(JNum(now)), None,
        Some(ReplyToJson(Handler.SuccessReply(Assemble.Assemble(c, Some(parsed), Some(payload)), ms))), None, None)
  }

  /** The record a run leaves behind, from the running record `j`: on
      success the success record; on failure (a missing payload included)
      the error patch over `j`, which records the message and status and
      keeps the payload and the creation time. */
  function Settled(c: Coercion, j: Job, pipeline: Handler.Pipeline, now: real, ms: real): (r: Job)
    ensures Generate(j.payload, pipeline).Success? ==>
              r.status == Some(JStr("done")) && r.payload == None
    ensures Generate(j.payload, pipeline).Failure? ==>
              var e := Generate(j.payload, pipeline).error;
              && r.status == Some(JStr("error"))
              && r.error == Some(ErrorInfo(MessageOf(e), StatusOf(e)))
              && r.result == Some(ReplyToJson(ErrorReply(MessageOf(e), Handler.StageMeta("handler", ms))))
              && r.payload == j.payload && r.createdAt == j.createdAt && r.ok == j.ok
  {
    match Generate(j.payload, pipeline)
    case Failure(e) => Patch(j, ErrorPatch(now, e, ms))
    case Success(parsed) => SuccessRecord(c, j, j.payload.value, parsed, now, ms)
  }

  /** `runJob(id)`: mark the job running, then write the record it settles
      to; no other job is touched. */
  function RunJob(c: Coercion, store: Store, id: string, pipeline: Handler.Pipeline, now: real, ms: real): (s: Store)
    ensures s.Keys == store.Keys + {id}
    ensures forall k :: k in store && k != id ==> s[k] == store[k]
    ensures s[id] == Settled(c, MarkRunning(store, id, now)[id], pipeline, now, ms)
  {
    var running := MarkRunning(store, id, now);
    WriteJob(running, id, Settled(c, running[id], pipeline, now, ms))
  }

  // ---------------------------------------------------------------------------
  // Status
  // ---------------------------------------------------------------------------

  const HeadKeys: seq<string> := ["ok", "jobId", "status"]

  /** `{ ok, jobId, status }`, the head of every 200 answer. */
  function Head(ok: bool, id: string, status: JVal): seq<(string, JVal)> {
    Zip(HeadKeys, [JBool(ok), JStr(id), status])
  }

  /** The head reads back what it was built from. */
  lemma HeadLookup(ok: bool, id: string, status: JVal)
    ensures Keys(Head(ok, id, status)) == HeadKeys
    ensures Lookup(Head(ok, id, status), "ok") == Some(JBool(ok))
    ensures Lookup(Head(ok, id, status), "jobId") == Some(JStr(id))
    ensures Lookup(Head(ok, id, status), "status") == Some(status)
  {
    var vs := [JBool(ok), JStr(id), status];
    assert Distinct(HeadKeys);
    ZipLookup(HeadKeys, vs, 0);
    ZipLookup(HeadKeys, vs, 1);
    ZipLookup(HeadKeys, vs, 2);
  }

  /** The answer for a finished job: the head, then the stored result's
      fields, which win over the head's. */
  function DoneReply(id: string, j: Job): seq<(string, JVal)> {
    Spread(Head(true, id, JStr("done")), Entries(Or(j.result, JNull)))
  }

  /** The answer for a failed job: not ok, the stored error's message and
      status (with their fallbacks), then the stored result's fields. */
  function FailedReply(id: string, j: Job): seq<(string, JVal)> {
    var message := Or(GetOpt(j.error, "message"), JStr("Falha no job"));
    var code := Or(GetOpt(j.error, "status"), JNum(500.0));
    Spread(Head(false, id, JStr("error")) + [("error", message), ("statusCode", code)], Entries(Or(j.result, JObj([]))))
  }

  /** The answer for a job still waiting or running: ok, its status and its
      timestamps (`null` when unset). */
  function PendingReply(id: string, j: Job, status: JVal): seq<(string, JVal)> {
    Head(true, id, status) + [("meta", JObj([("createdAt", Or(j.createdAt, JNull)), ("updatedAt", Or(j.updatedAt, JNull))]))]
  }

  /** The 200 answer for a stored record: an absent status reads as
      `queued`. */
  function JobReply(id: string, j: Job): seq<(string, JVal)> {
    var st := Or(j.status, JStr("queued"));
    if st == JStr("done") then DoneReply(id, j)
    else if st == JStr("error") then FailedReply(id, j)
    else PendingReply(id, j, st)
  }

  /** A stored record's status word selects its answer. */
  lemma JobReplyCases(id: string, j: Job)
    ensures j.status == Some(JStr("done")) ==> JobReply(id, j) == DoneReply(id, j)
    ensures j.status == Some(JStr("error")) ==> JobReply(id, j) == FailedReply(id, j)
    ensures j.status == Some(JStr("queued")) ==> JobReply(id, j) == PendingReply(id, j, JStr("queued"))
    ensures j.status == Some(JStr("running")) ==> JobReply(id, j) == PendingReply(id, j, JStr("running"))
    ensures j.status == None ==> JobReply(id, j) == PendingReply(id, j, JStr("queued"))
  {
    var st := Or(j.status, JStr("queued"));
    if j.status == None {
      assert st == JStr("queued");
    } else if Truthy(j.status.value) {
      assert st == j.status.value;
    }
  }

  /** The status endpoint's catch block. */
  function StatusFailed(e: Thrown): Answer {
    Send(500, [("ok", JBool(false)), ("error", JStr(MessageOf(e)))])
  }

  /** The job id a status query names: `String(jobId || "").trim()`. */
  function QueryId(c: Coercion, query: Option<JVal>): (id: string)
    ensures IsTrimmed(id)
    ensures id == [] <==> IsBlank(StrOr(c, query))
  {
    TrimIsTrimmed(StrOr(c, query));
    Trim(StrOr(c, query))
  }

  /** The status endpoint: the trimmed `jobId` query value is required (400
      without it), the job must exist (404 otherwise), and a stored job is
      answered 200. */
  function Status(c: Coercion, verb: string, guard: Option<Thrown>, query: Option<JVal>, store: Store): (a: Answer)
    ensures verb == "OPTIONS" ==> a == Preflight
    ensures verb != "OPTIONS" && verb != "GET" ==> a == NotAllowed
    ensures verb == "GET" && guard.Some? ==> a == StatusFailed(guard.value)
    ensures verb == "GET" && guard.None? && QueryId(c, query) == [] ==> a.Send? && a.status == 400
    ensures verb == "GET" && guard.None? && QueryId(c, query) != [] ==>
              a.Send? && (a.status == 404 <==> QueryId(c, query) !in store)
    ensures verb == "GET" && guard.None? && QueryId(c, query) != [] && QueryId(c, query) in store ==>
              a == Send(200, JobReply(QueryId(c, query), store[QueryId(c, query)]))
  {
    if verb == "OPTIONS" then Preflight
    else if verb != "GET" then NotAllowed
    else if guard.Some? then StatusFailed(guard.value)
    else
      var id := QueryId(c, query);
      if id == [] then Send(400, [("ok", JBool(false)), ("error", JStr("jobId ausente"))])
      else
        match ReadJob(store, id)
        case None => Send(404, [("ok", JBool(false)), ("error", JStr("Job não encontrado"))])
        case Some(j) => Send(200, JobReply(id, j))
  }

  // ---------------------------------------------------------------------------
  // The flow end to end
  // ---------------------------------------------------------------------------

  /** A reply's JSON spread over an answer head: the reply's keys read the
      reply's fields. */
  lemma ReplySpread(head: seq<(string, JVal)>, r: Reply)
    ensures var b := Spread(head, Entries(ReplyToJson(r)));
            && Lookup(b, "ok") == Some(JBool(r.ok))
            && Lookup(b, "alerts") == Some(JArr(r.alerts))
            && Lookup(b, "missing") == Some(JArr(r.missing))
            && Lookup(b, "meta") == Some(JObj(r.meta))
  {
    var es := Entries(ReplyToJson(r));
    ReplyKeysDistinct();
    ReplyToJsonLookup(r);
    assert UniqueKeys(es);
    SpreadOver(head, es, "ok");
    SpreadOver(head, es, "alerts");
    SpreadOver(head, es, "missing");
    SpreadOver(head, es, "meta");
  }

  /** Every key a reply does not have reads the head under the spread. */
  lemma ReplySpreadSkips(head: seq<(string, JVal)>, r: Reply, k: string)
    requires k !in ReplyKeys
    ensures Lookup(Spread(head, Entries(ReplyToJson(r))), k) == Lookup(head, k)
  {
    assert Keys(Entries(ReplyToJson(r))) == ReplyKeys;
  }

  /** The head of an answer with more pairs after it. */
  lemma HeadThen(ok: bool, id: string, status: JVal, rest: seq<(string, JVal)>)
    ensures var b := Head(ok, id, status) + rest;
            && Lookup(b, "ok") == Some(JBool(ok)) && Lookup(b, "status") == Some(status)
            && Lookup(b, "jobId") == Some(JStr(id))
  {
    var h := Head(ok, id, status);
    HeadLookup(ok, id, status);
    LookupConcat(h, rest, "ok");
    LookupConcat(h, rest, "status");
    LookupConcat(h, rest, "jobId");
  }

  /** Every key the head does not have reads the pairs after it. */
  lemma HeadSkips(ok: bool, id: string, status: JVal, rest: seq<(string, JVal)>, k: string)
    requires k !in HeadKeys
    ensures Lookup(Head(ok, id, status) + rest, k) == Lookup(rest, k)
  {
    HeadLookup(ok, id, status);
    LookupConcat(Head(ok, id, status), rest, k);
  }

  /** A finished record whose result is a reply: the answer is the head
      with the reply spread over it, so the reply's `ok` wins. */
  lemma DoneRecordReads(id: string, j: Job, r: Reply)
    requires j.status == Some(JStr("done")) && j.result == Some(ReplyToJson(r))
    ensures var b := JobReply(id, j);
            && Lookup(b, "ok") == Some(JBool(r.ok))
            && Lookup(b, "status") == Some(JStr("done"))
            && Lookup(b, "jobId") == Some(JStr(id))
            && Lookup(b, "missing") == Some(JArr(r.missing))
  {
    var head := Head(true, id, JStr("done"));
    JobReplyCases(id, j);
    assert Present(j.result);
    assert JobReply(id, j) == Spread(head, Entries(ReplyToJson(r)));
    ReplySpread(head, r);
    HeadLookup(true, id, JStr("done"));
    AnswerKeys();
    ReplySpreadSkips(head, r, "status");
    ReplySpreadSkips(head, r, "jobId");
  }

  /** The answer for a waiting or running job reads its head and its
      timestamps. */
  lemma PendingReplyReads(id: string, j: Job, status: JVal)
    ensures var b := PendingReply(id, j, status);
            && Lookup(b, "ok") == Some(JBool(true))
            && Lookup(b, "status") == Some(status)
            && Lookup(b, "jobId") == Some(JStr(id))
            && Lookup(b, "meta") == Some(JObj([("createdAt", Or(j.createdAt, JNull)), ("updatedAt", Or(j.updatedAt, JNull))]))
  {
    var rest := [("meta", JObj([("createdAt", Or(j.createdAt, JNull)), ("updatedAt", Or(j.updatedAt, JNull))]))];
    HeadThen(true, id, status, rest);
    HeadSkips(true, id, status, rest, "meta");
  }

  /** A queued record: the answer is the head and the timestamps. */
  lemma QueuedRecordReads(id: string, j: Job, created: JVal, updated: JVal)
    requires j.status == Some(JStr("queued"))
    requires j.createdAt == Some(created) && Truthy(created)
    requires j.updatedAt == Some(updated) && Truthy(updated)
    ensures var b := JobReply(id, j);
            && Lookup(b, "ok") == Some(JBool(true))
            && Lookup(b, "status") == Some(JStr("queued"))
            && Lookup(b, "jobId") == Some(JStr(id))
            && Lookup(b, "meta") == Some(JObj([("createdAt", created), ("updatedAt", updated)]))
  {
    assert JobReply(id, j) == PendingReply(id, j, JStr("queued")) by {
      JobReplyCases(id, j);
    }
    PendingReplyReads(id, j, JStr("queued"));
    assert Or(j.createdAt, JNull) == created && Or(j.updatedAt, JNull) == updated;
  }

  /** Polling a stored job answers 200 with the reply for its record. */
  lemma StatusOfStored(c: Coercion, query: Option<JVal>, s: Store, id: string)
    requires QueryId(c, query) == id && id != [] && id in s
    ensures Status(c, "GET", None, query, s) == Send(200, JobReply(id, s[id]))
  {
  }

  /** The start endpoint stores the record of the validated payload. */
  lemma StartStores(c: Coercion, body: Option<JVal>, store: Store, id: string, now: real)
    ensures var o := Start(c, "POST", None, body, store, id, now);
            && id in o.store
            && o.store[id] == StartRecord(now, Handler.PayloadOf(body), Handler.CheckInput(c, Handler.PayloadOf(body)))
  {
  }

  /** Polling a job the start endpoint refused as invalid: a finished,
      not-ok job whose answer lists the missing fields. */
  lemma InvalidStartReadsDone(c: Coercion, body: Option<JVal>, store: Store, id: string, now: real, query: Option<JVal>)
    requires QueryId(c, query) == id && id != []
    requires !Handler.CheckInput(c, Handler.PayloadOf(body)).ok
    ensures var v := Handler.CheckInput(c, Handler.PayloadOf(body));
            var a := Status(c, "GET", None, query, Start(c, "POST", None, body, store, id, now).store);
            && a.Send? && a.status == 200
            && Lookup(a.body, "ok") == Some(JBool(false))
            && Lookup(a.body, "status") == Some(JStr("done"))
            && Lookup(a.body, "jobId") == Some(JStr(id))
            && Lookup(a.body, "missing") == Some(JArr(MissingListToJson(v.missing)))
  {
    var v := Handler.CheckInput(c, Handler.PayloadOf(body));
    var s := Start(c, "POST", None, body, store, id, now).store;
    StartStores(c, body, store, id, now);
    StatusOfStored(c, query, s, id);
    DoneRecordReads(id, s[id], Handler.ValidationReply(v, ValidateStage));
  }

  /** Polling a job the start endpoint accepted: ok, queued, created now. */
  lemma ValidStartReadsQueued(c: Coercion, body: Option<JVal>, store: Store, id: string, now: real, query: Option<JVal>)
    requires QueryId(c, query) == id && id != []
    requires Handler.CheckInput(c, Handler.PayloadOf(body)).ok
    requires now != 0.0
    ensures var a := Status(c, "GET", None, query, Start(c, "POST", None, body, store, id, now).store);
            && a.Send? && a.status == 200
            && Lookup(a.body, "ok") == Some(JBool(true))
            && Lookup(a.body, "status") == Some(JStr("queued"))
            && Lookup(a.body, "meta") == Some(JObj([("createdAt", JNum(now)), ("updatedAt", JNum(now))]))
  {
    var s := Start(c, "POST", None, body, store, id, now).store;
    StartStores(c, body, store, id, now);
    StatusOfStored(c, query, s, id);
    QueuedRecordReads(id, s[id], JNum(now), JNum(now));
  }

  /** The record a run leaves for a stored job whose payload is present. */
  lemma RunSettles(c: Coercion, s0: Store, id: string, pipeline: Handler.Pipeline, later: real, ms: real, payload: JVal)
    requires id in s0 && s0[id].payload == Some(payload) && Truthy(payload)
    ensures var s := RunJob(c, s0, id, pipeline, later, ms);
            && (pipeline(payload).Success? ==>
                  s[id] == SuccessRecord(c, MarkRunning(s0, id, later)[id], payload, pipeline(payload).value, later, ms))
            && (pipeline(payload).Failure? ==>
                  var e := pipeline(payload).error;
                  && s[id].status == Some(JStr("error"))
                  && s[id].error == Some(ErrorInfo(MessageOf(e), StatusOf(e)))
                  && s[id].result == Some(ReplyToJson(ErrorReply(MessageOf(e), Handler.StageMeta("handler", ms)))))
  {
    var running := MarkRunning(s0, id, later)[id];
    assert running.payload == Some(payload);
    assert Generate(running.payload, pipeline) == pipeline(payload);
  }

  /** An accepted job is stored with its (truthy) payload. */
  lemma StartKeepsPayload(c: Coercion, body: Option<JVal>, store: Store, id: string, now: real)
    requires Handler.CheckInput(c, Handler.PayloadOf(body)).ok
    ensures var s0 := Start(c, "POST", None, body, store, id, now).store;
            id in s0 && s0[id].payload == Some(Handler.PayloadOf(body)) && Truthy(Handler.PayloadOf(body))
  {
    var v := Handler.CheckInput(c, Handler.PayloadOf(body));
    StartStores(c, body, store, id, now);
    RecordKeepsPayload(now, Handler.PayloadOf(body), v);
    PayloadTruthy(body);
  }

  lemma RecordKeepsPayload(now: real, payload: JVal, v: Validation)
    requires v.ok
    ensures StartRecord(now, payload, v).payload == Some(payload)
  {
  }

  /** `req.body || {}` is always truthy. */
  lemma PayloadTruthy(body: Option<JVal>)
    ensures Truthy(Handler.PayloadOf(body))
  {
  }

  /** Polling a job whose run succeeded: done, and `ok` as the assembled
      reply has it. */
  lemma SucceededReadsDone(c: Coercion, running: Job, payload: JVal, parsed: JVal, later: real, ms: real,
                           id: string)
    ensures var out := Assemble.Assemble(c, Some(parsed), Some(payload));
            var b := JobReply(id, SuccessRecord(c, running, payload, parsed, later, ms));
            && Lookup(b, "status") == Some(JStr("done"))
            && Lookup(b, "ok") == Some(JBool(out.ok))
            && Lookup(b, "jobId") == Some(JStr(id))
  {
    var out := Assemble.Assemble(c, Some(parsed), Some(payload));
    var r := Handler.SuccessReply(out, ms);
    DoneRecordReads(id, SuccessRecord(c, running, payload, parsed, later, ms), r);
  }

  /** Start, run, poll, when the pipeline fails: the poll answers 200 with
      a not-ok job in error carrying the thrown message and status. */
  lemma StartRunFailedReads(c: Coercion, body: Option<JVal>, store: Store, id: string, now: real,
                            pipeline: Handler.Pipeline, later: real, ms: real, query: Option<JVal>)
    requires QueryId(c, query) == id && id != []
    requires Handler.CheckInput(c, Handler.PayloadOf(body)).ok
    requires pipeline(Handler.PayloadOf(body)).Failure?
    ensures var e := pipeline(Handler.PayloadOf(body)).error;
            var s := RunJob(c, Start(c, "POST", None, body, store, id, now).store, id, pipeline, later, ms);
            var a := Status(c, "GET", None, query, s);
            && a.Send? && a.status == 200
            && Lookup(a.body, "ok") == Some(JBool(false))
            && Lookup(a.body, "status") == Some(JStr("error"))
            && Lookup(a.body, "error") == Some(JStr(MessageOf(e)))
            && Lookup(a.body, "statusCode") == Some(JNum(StatusOf(e) as real))
  {
    var payload := Handler.PayloadOf(body);
    var s0 := Start(c, "POST", None, body, store, id, now).store;
    StartKeepsPayload(c, body, store, id, now);
    RunSettles(c, s0, id, pipeline, later, ms, payload);
    var s := RunJob(c, s0, id, pipeline, later, ms);
    StatusOfStored(c, query, s, id);
    FailedReadsError(id, s[id], pipeline(payload).error, ms);
  }

  /** Start, run, poll, when the pipeline succeeds: the poll answers 200
      with a finished job whose `ok` is the assembled reply's. */
  lemma StartRunSucceededReads(c: Coercion, body: Option<JVal>, store: Store, id: string, now: real,
                               pipeline: Handler.Pipeline, later: real, ms: real, query: Option<JVal>)
    requires QueryId(c, query) == id && id != []
    requires Handler.CheckInput(c, Handler.PayloadOf(body)).ok
    requires pipeline(Handler.PayloadOf(body)).Success?
    ensures var payload := Handler.PayloadOf(body);
            var out := Assemble.Assemble(c, Some(pipeline(payload).value), Some(payload));
            var s := RunJob(c, Start(c, "POST", None, body, store, id, now).store, id, pipeline, later, ms);
            var a := Status(c, "GET", None, query, s);
            && a.Send? && a.status == 200
            && Lookup(a.body, "ok") == Some(JBool(out.ok))
            && Lookup(a.body, "status") == Some(JStr("done"))
  {
    var payload := Handler.PayloadOf(body);
    var s0 := Start(c, "POST", None, body, store, id, now).store;
    StartKeepsPayload(c, body, store, id, now);
    RunSettles(c, s0, id, pipeline, later, ms, payload);
    var s := RunJob(c, s0, id, pipeline, later, ms);
    StatusOfStored(c, query, s, id);
    SucceededReadsDone(c, MarkRunning(s0, id, later)[id], payload, pipeline(payload).value, later, ms, id);
  }

  /** The keys the status answers add are not keys of a reply, and the
      added ones are not keys of the head. */
  lemma AnswerKeys()
    ensures "status" !in ReplyKeys && "jobId" !in ReplyKeys
    ensures "error" !in ReplyKeys && "statusCode" !in ReplyKeys
    ensures "error" !in HeadKeys && "statusCode" !in HeadKeys && "meta" !in HeadKeys
  {
  }

  /** `{ k1: v1, k2: v2 }` with two distinct keys reads both back. */
  lemma PairLookup(k1: string, v1: JVal, k2: string, v2: JVal)
    requires k1 != k2
    ensures Lookup([(k1, v1), (k2, v2)], k1) == Some(v1)
    ensures Lookup([(k1, v1), (k2, v2)], k2) == Some(v2)
  {
    assert [(k1, v1), (k2, v2)][1..] == [(k2, v2)];
  }

  /** The answer for a failed job reads the head's status, the error
      message and status code it adds, and the stored reply's `ok`. */
  lemma FailedReplyReads(id: string, message: JVal, code: JVal, r: Reply)
    ensures var b := Spread(Head(false, id, JStr("error")) + [("error", message), ("statusCode", code)],
                            Entries(ReplyToJson(r)));
            && Lookup(b, "ok") == Some(JBool(r.ok))
            && Lookup(b, "status") == Some(JStr("error"))
            && Lookup(b, "error") == Some(message)
            && Lookup(b, "statusCode") == Some(code)
  {
    var rest := [("error", message), ("statusCode", code)];
    var head := Head(false, id, JStr("error")) + rest;
    ReplySpread(head, r);
    HeadThen(false, id, JStr("error"), rest);
    PairLookup("error", message, "statusCode", code);
    AnswerKeys();
    HeadSkips(false, id, JStr("error"), rest, "error");
    HeadSkips(false, id, JStr("error"), rest, "statusCode");
    ReplySpreadSkips(head, r, "status");
    ReplySpreadSkips(head, r, "error");
    ReplySpreadSkips(head, r, "statusCode");
  }

  /** Polling a job whose run failed: not ok, in error, with the thrown
      message and status. */
  lemma FailedReadsError(id: string, j: Job, e: Thrown, ms: real)
    requires j.status == Some(JStr("error"))
    requires j.error == Some(ErrorInfo(MessageOf(e), StatusOf(e)))
    requires j.result == Some(ReplyToJson(ErrorReply(MessageOf(e), Handler.StageMeta("handler", ms))))
    ensures var b := JobReply(id, j);
            && Lookup(b, "ok") == Some(JBool(false))
            && Lookup(b, "status") == Some(JStr("error"))
            && Lookup(b, "error") == Some(JStr(MessageOf(e)))
            && Lookup(b, "statusCode") == Some(JNum(StatusOf(e) as real))
  {
    var r := ErrorReply(MessageOf(e), Handler.StageMeta("handler", ms));
    var message, code := JStr(MessageOf(e)), JNum(StatusOf(e) as real);
    assert JobReply(id, j) == FailedReply(id, j) by {
      JobReplyCases(id, j);
    }
    FailedReplyOf(id, j, e, r);
    FailedReplyReads(id, message, code, r);
  }

  /** The answer for a record a failed run left behind. */
  lemma FailedReplyOf(id: string, j: Job, e: Thrown, r: Reply)
    requires j.error == Some(ErrorInfo(MessageOf(e), StatusOf(e)))
    requires j.result == Some(ReplyToJson(r))
    ensures FailedReply(id, j) == Spread(Head(false, id, JStr("error")) + [("error", JStr(MessageOf(e))), ("statusCode", JNum(StatusOf(e) as real))],
                                         Entries(ReplyToJson(r)))
  {
    var m, st := MessageOf(e), StatusOf(e);
    assert Or(GetOpt(j.error, "message"), JStr("Falha no job")) == JStr(m) by {
      assert GetOpt(j.error, "message") == Some(JStr(m));
    }
    assert Or(GetOpt(j.error, "status"), JNum(500.0)) == JNum(st as real) by {
      assert GetOpt(j.error, "status") == Some(JNum(st as real));
      assert st != 0;
    }
    assert Or(j.result, JObj([])) == ReplyToJson(r) by {
      assert Present(j.result);
    }
  }
}
