/** The synchronous draft endpoint: verb dispatch, the guard, validation
    without a schema, the generation pipeline and the envelope each path
    returns. Building the prompt, calling the model and parsing its reply
    are one pipeline parameter; the rate limiter and the token check are
    one guard outcome; the clock is the elapsed time passed in. */
module Handler {
  import opened Wrappers
  import opened Text
  import opened Json
  import opened Draft
  import opened Validate
  import opened Assemble

  /** `buildPrompt`, `callModel` and `parseModel` applied to a payload: the
      parsed model reply, or what one of them threw. */
  type Pipeline = JVal -> Result<JVal, Thrown>

  /** What the endpoint sends: the CORS preflight answer, the 405 answer,
      or a status with a JSON envelope. */
  datatype Response = Preflight | NotAllowed | Json(status: int, body: Reply)

  /** `{ stage, ms }` */
  function StageMeta(stage: string, ms: real): seq<(string, JVal)> {
    [("stage", JStr(stage)), ("ms", JNum(ms))]
  }

  /** `req.body || {}` */
  function PayloadOf(body: Option<JVal>): JVal {
    Or(body, JObj([]))
  }

  /** The validation the endpoints run: no schema, so no required fields,
      and the default empty `meta`. */
  function CheckInput(c: Coercion, payload: JVal): (v: Validation)
    ensures v.ok <==> v.missing == []
    ensures v.missing == OrigemMissing(ReadFacts(c, payload).categoria, ReadFacts(c, payload).subtipo)
  {
    ValidateDraftInput(c, payload, [], JObj([]))
  }

  /** The envelope of a failed validation: not ok, no html, empty sections,
      the validator's alerts and missing entries. */
  function ValidationReply(v: Validation, meta: seq<(string, JVal)>): (r: Reply)
    ensures !r.ok && r.html == [] && r.sections == EmptySections() && r.meta == meta
    ensures |r.alerts| == |v.alerts| && r.missing == MissingListToJson(v.missing)
  {
    Reply(false, "", EmptySections(), AlertsToJson(v.alerts).items, MissingListToJson(v.missing), meta)
  }

  /** The envelope of a successful run: the assembled reply with the elapsed
      time spread over its `meta`. */
  function SuccessReply(out: Reply, ms: real): (r: Reply)
    ensures r.ok == out.ok && r.html == out.html && r.sections == out.sections
    ensures r.alerts == out.alerts && r.missing == out.missing
    ensures Lookup(r.meta, "ms") == Some(JNum(ms))
    ensures forall k :: k != "ms" ==> Lookup(r.meta, k) == Lookup(out.meta, k)
  {
    assert Keys([("ms", JNum(ms))]) == ["ms"];
    SpreadOne(out.meta, "ms", JNum(ms));
    Reply(out.ok, out.html, out.sections, out.alerts, out.missing, Spread(out.meta, [("ms", JNum(ms))]))
  }

  /** The response of the catch block: the thrown status (500 without one)
      and the degraded envelope. */
  function Caught(e: Thrown, ms: real): (r: Response)
    ensures r.Json? && r.status == StatusOf(e)
    ensures r.body == ErrorReply(MessageOf(e), StageMeta("handler", ms))
  {
    Json(StatusOf(e), ErrorReply(MessageOf(e), StageMeta("handler", ms)))
  }

  /** The body of the `try` block once the guard passed and the payload
      was validated to `v`: a failed validation answers 400, otherwise the
      pipeline runs and its reply is assembled. */
  function Post(c: Coercion, payload: JVal, v: Validation, pipeline: Pipeline, ms: real): (r: Response)
    ensures !v.ok ==> r == Json(400, ValidationReply(v, StageMeta("validate", ms)))
    ensures v.ok && pipeline(payload).Failure? ==> r == Caught(pipeline(payload).error, ms)
    ensures v.ok && pipeline(payload).Success? ==>
              r == Json(200, SuccessReply(Assemble.Assemble(c, Some(pipeline(payload).value), Some(payload)), ms))
  {
    if !v.ok then Json(400, ValidationReply(v, StageMeta("validate", ms)))
    else
      match pipeline(payload)
      case Failure(e) => Caught(e, ms)
      case Success(parsed) => Json(200, SuccessReply(Assemble.Assemble(c, Some(parsed), Some(payload)), ms))
  }

  /** The draft endpoint: OPTIONS is the preflight, any verb but POST is
      refused, a failed guard is caught, and otherwise the payload (an
      empty object when the body is absent) is validated without a schema
      and handled. */
  function DraftHandler(c: Coercion, verb: string, guard: Option<Thrown>, body: Option<JVal>,
                        pipeline: Pipeline, ms: real): (r: Response)
    ensures verb == "OPTIONS" ==> r == Preflight
    ensures verb != "OPTIONS" && verb != "POST" ==> r == NotAllowed
    ensures verb == "POST" && guard.Some? ==> r == Caught(guard.value, ms)
    ensures verb == "POST" && guard.None? ==>
              r == Post(c, PayloadOf(body), CheckInput(c, PayloadOf(body)), pipeline, ms)
  {
    if verb == "OPTIONS" then Preflight
    else if verb != "POST" then NotAllowed
    else if guard.Some? then Caught(guard.value, ms)
    else Post(c, PayloadOf(body), CheckInput(c, PayloadOf(body)), pipeline, ms)
  }

  /** A failed validation answers before the pipeline runs: whatever the
      pipeline would do, the response is the same. */
  lemma ValidationSkipsPipeline(c: Coercion, payload: JVal, v: Validation, p1: Pipeline, p2: Pipeline, ms: real)
    requires !v.ok
    ensures Post(c, payload, v, p1, ms) == Post(c, payload, v, p2, ms)
    ensures Post(c, payload, v, p1, ms).status == 400 && !Post(c, payload, v, p1, ms).body.ok
  {
  }

  /** Without a schema, a payload the validator rejects is answered with 400
      and exactly one missing field: the origin subtype or the origin
      category. */
  lemma RejectionNamesOneField(c: Coercion, body: Option<JVal>, pipeline: Pipeline, ms: real)
    requires !CheckInput(c, PayloadOf(body)).ok
    ensures var r := DraftHandler(c, "POST", None, body, pipeline, ms);
            r.Json? && r.status == 400 &&
            (r.body.missing == [MissingToJson(SubtipoMissing)] || r.body.missing == [MissingToJson(CategoriaMissing)])
  {
    var v := CheckInput(c, PayloadOf(body));
    ValidateWithoutSchema(c, PayloadOf(body), JObj([]));
    var r := DraftHandler(c, "POST", None, body, pipeline, ms);
    assert r == Json(400, ValidationReply(v, StageMeta("validate", ms)));
    assert r.body.missing == MissingListToJson(v.missing);
    MissingListSingle(v.missing);
  }

  lemma MissingListSingle(ms: seq<MissingField>)
    requires |ms| == 1
    ensures MissingListToJson(ms) == [MissingToJson(ms[0])]
  {
  }

  /** A 200 answers the assembled reply: `ok` as the model reported it,
      trimmed sections, html whenever a section has text, `meta` recording
      whether any section has text, and the elapsed time. */
  lemma SuccessIsAssembled(c: Coercion, payload: JVal, v: Validation, pipeline: Pipeline, ms: real)
    requires v.ok && pipeline(payload).Success?
    ensures var parsed := pipeline(payload).value;
            var r := Post(c, payload, v, pipeline, ms);
            r.Json? && r.status == 200 &&
            (r.body.ok <==> Present(GetOpt(Some(parsed), "ok"))) &&
            AllTrimmed(r.body.sections) &&
            (HasAnyText(r.body.sections) ==> r.body.html != []) &&
            Lookup(r.body.meta, "hasSections") == Some(JBool(HasAnyText(r.body.sections))) &&
            Lookup(r.body.meta, "ms") == Some(JNum(ms))
  {
  }

  /** A thrown error (from the guard or the pipeline) is answered with its
      own status, or 500 without one, and the degraded envelope naming its
      message. */
  lemma ErrorsAreCaught(c: Coercion, payload: JVal, v: Validation, pipeline: Pipeline, ms: real)
    requires v.ok && pipeline(payload).Failure?
    ensures var e := pipeline(payload).error;
            var r := Post(c, payload, v, pipeline, ms);
            r.Json? && r.status == StatusOf(e) && !r.body.ok && r.body.html == [] &&
            r.body.sections == EmptySections() && |r.body.alerts| == 1 && r.body.missing == []
  {
  }
}
