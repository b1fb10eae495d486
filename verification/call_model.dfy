/** The deterministic part of the model call: pulling the first output text
    out of a Responses-API reply, clipping it to 25000 characters, and the
    errors raised when the reply is unusable. The HTTP request itself, its
    timeout and the clock are parameters. */
module CallModel {
  import opened Wrappers
  import opened Text
  import opened Json
  import opened Draft

  const MaxOutputChars: nat := 25000
  const MaxErrorChars: nat := 500
  const Ellipsis: string := "…"
  const DefaultModel: string := "gpt-4.1"

  /** `truncate(s, max)` for a string `s`. */
  function Truncate(s: string, max: nat): (r: string)
    ensures |s| <= max ==> r == s
    ensures |s| > max ==> r == s[..max] + Ellipsis
  {
    Clip(s, max, Ellipsis)
  }

  // ---------------------------------------------------------------------------
  // Finding the output text
  // ---------------------------------------------------------------------------

  /** `c.type === "output_text" && typeof c.text === "string"` */
  predicate IsOutputText(c: JVal) {
    Get(c, "type") == Some(JStr("output_text")) && Get(c, "text").Some? && Get(c, "text").value.JStr?
  }

  function TextOf(c: JVal): string
    requires IsOutputText(c)
  {
    Get(c, "text").value.str
  }

  /** The message a property read on `null` throws. */
  function NullRead(prop: string): Thrown {
    Thrown("Cannot read properties of null (reading '" + prop + "')", 0)
  }

  /** The inner loop over one message's content items. */
  function ScanContent(items: seq<JVal>): (r: Result<Option<string>, Thrown>)
    ensures r.Success? && r.value.Some? ==> IsTrimmed(r.value.value)
    decreases |items|
  {
    if |items| == 0 then Success(None)
    else if items[0].JNull? then Failure(NullRead("type"))
    else if IsOutputText(items[0]) then
      TrimIsTrimmed(TextOf(items[0]));
      Success(Some(Trim(TextOf(items[0]))))
    else ScanContent(items[1..])
  }

  /** The outer loop over the output messages: a message whose `content` is
      not an array is skipped; the first output text found is returned. */
  function ScanMessages(msgs: seq<JVal>): (r: Result<string, Thrown>)
    ensures r.Success? ==> IsTrimmed(r.value)
    decreases |msgs|
  {
    if |msgs| == 0 then Success("")
    else if msgs[0].JNull? then Failure(NullRead("content"))
    else
      var content := Get(msgs[0], "content");
      if content.Some? && content.value.JArr? then
        match ScanContent(content.value.items)
        case Failure(e) => Failure(e)
        case Success(Some(t)) => Success(t)
        case Success(None) => ScanMessages(msgs[1..])
      else ScanMessages(msgs[1..])
  }

  /** `extractOutputText(resp)` */
  function ExtractOutputText(resp: JVal): (r: Result<string, Thrown>)
    ensures r.Success? ==> IsTrimmed(r.value)
    ensures !Truthy(resp) ==> r == Success("")
    ensures !(Get(resp, "output").Some? && Get(resp, "output").value.JArr?) ==> r == Success("")
  {
    if !Truthy(resp) then Success("")
    else
      var out := Get(resp, "output");
      if out.Some? && out.value.JArr? then ScanMessages(out.value.items) else Success("")
  }

  // ---------------------------------------------------------------------------
  // The same search over the flattened content
  // ---------------------------------------------------------------------------

  /** One step of the nested search: an item to test, or a `null` whose
      property read throws. */
  datatype Step = Item(c: JVal) | Crash(error: Thrown)

  /** The steps one message contributes. */
  function MessageSteps(msg: JVal): seq<Step> {
    if msg.JNull? then [Crash(NullRead("content"))]
    else
      var content := Get(msg, "content");
      if content.Some? && content.value.JArr? then ItemSteps(content.value.items) else []
  }

  function ItemSteps(items: seq<JVal>): (ss: seq<Step>)
    ensures |ss| == |items|
    ensures forall i :: 0 <= i < |items| ==> ss[i] == if items[i].JNull? then Crash(NullRead("type")) else Item(items[i])
  {
    seq(|items|, i requires 0 <= i < |items| => if items[i].JNull? then Crash(NullRead("type")) else Item(items[i]))
  }

  /** Every step of the search, message after message. */
  function Flatten(msgs: seq<JVal>): seq<Step>
    decreases |msgs|
  {
    if |msgs| == 0 then [] else MessageSteps(msgs[0]) + Flatten(msgs[1..])
  }

  /** The first step that decides: a crash, or an output-text item. */
  function Search(steps: seq<Step>): Result<Option<string>, Thrown>
    decreases |steps|
  {
    if |steps| == 0 then Success(None)
    else match steps[0]
      case Crash(e) => Failure(e)
      case Item(c) => if IsOutputText(c) then Success(Some(Trim(TextOf(c)))) else Search(steps[1..])
  }

  /** Searching a concatenation searches the second part only when the first
      decides nothing. */
  lemma {:induction false} SearchConcat(a: seq<Step>, b: seq<Step>)
    ensures Search(a + b) == if Search(a) == Success(None) then Search(b) else Search(a)
    decreases |a|
  {
    if |a| == 0 {
      assert a + b == b;
    } else {
      assert (a + b)[0] == a[0];
      assert (a + b)[1..] == a[1..] + b;
      SearchConcat(a[1..], b);
    }
  }

  lemma {:induction false} ScanContentIsSearch(items: seq<JVal>)
    ensures ScanContent(items) == Search(ItemSteps(items))
    decreases |items|
  {
    if |items| > 0 {
      var ss := ItemSteps(items);
      assert ss[1..] == ItemSteps(items[1..]);
      ScanContentIsSearch(items[1..]);
    }
  }

  /** The nested loops return what a single search over all content items,
      in message order, finds first. */
  lemma {:induction false} ScanMessagesIsSearch(msgs: seq<JVal>)
    ensures ScanMessages(msgs) == match Search(Flatten(msgs))
                                  case Failure(e) => Failure(e)
                                  case Success(o) => Success(o.GetOr(""))
    decreases |msgs|
  {
    if |msgs| > 0 {
      var head := MessageSteps(msgs[0]);
      SearchConcat(head, Flatten(msgs[1..]));
      ScanMessagesIsSearch(msgs[1..]);
      if !msgs[0].JNull? {
        var content := Get(msgs[0], "content");
        if content.Some? && content.value.JArr? {
          ScanContentIsSearch(content.value.items);
        }
      }
    }
  }

  /** An output text exists and nothing before it crashes: the search finds
      exactly that text, trimmed. */
  lemma {:induction false} SearchFindsFirst(steps: seq<Step>, k: nat)
    requires k < |steps| && steps[k].Item? && IsOutputText(steps[k].c)
    requires forall i :: 0 <= i < k ==> steps[i].Item? && !IsOutputText(steps[i].c)
    ensures Search(steps) == Success(Some(Trim(TextOf(steps[k].c))))
    decreases k
  {
    if k > 0 {
      var rest := steps[1..];
      assert Search(steps) == Search(rest) by {
        assert steps[0].Item? && !IsOutputText(steps[0].c);
      }
      assert rest[k - 1] == steps[k];
      forall i | 0 <= i < k - 1 ensures rest[i].Item? && !IsOutputText(rest[i].c) {
        assert rest[i] == steps[i + 1];
      }
      SearchFindsFirst(rest, k - 1);
    }
  }

  /** With no crash and no output text anywhere, the search finds nothing. */
  lemma {:induction false} SearchFindsNothing(steps: seq<Step>)
    requires forall i :: 0 <= i < |steps| ==> steps[i].Item? && !IsOutputText(steps[i].c)
    ensures Search(steps) == Success(None)
    decreases |steps|
  {
    if |steps| > 0 {
      assert forall i :: 0 <= i < |steps| - 1 ==> steps[1..][i] == steps[i + 1];
      SearchFindsNothing(steps[1..]);
    }
  }

  // ---------------------------------------------------------------------------
  // The call's result
  // ---------------------------------------------------------------------------

  /** The HTTP reply of the model endpoint: `r.ok`, `r.status` and the body
      text. */
  datatype HttpReply = HttpReply(ok: bool, status: nat, body: string)

  /** What `callModel` resolves to. */
  datatype Completion = Completion(model: string, text: string, meta: seq<(string, JVal)>)

  /** A parser that also reports its error message. */
  type Parser = string -> Result<JVal, string>

  /** The `truncated` flag as the code computes it: the output is longer
      than the clipped text. */
  function TruncatedAsWritten(output: string): bool {
    |output| > |Truncate(output, MaxOutputChars)|
  }

  /** The flag as intended: some of the output was cut off. */
  function Truncated(output: string): bool {
    |output| > MaxOutputChars
  }

  /** The intended flag holds exactly when characters of the output are
      missing from the clipped text, and the clipped text is the output
      otherwise. */
  lemma TruncatedIffCut(output: string)
    ensures !Truncated(output) ==> Truncate(output, MaxOutputChars) == output
    ensures Truncated(output) ==>
              Truncate(output, MaxOutputChars) == output[..MaxOutputChars] + Ellipsis && |output[MaxOutputChars..]| >= 1
  {
  }

  /** The code's flag misses the one length at which the ellipsis replaces
      exactly one character: a 25001-character output is cut yet reported as
      not truncated. */
  lemma TruncatedAsWrittenMisses()
    ensures var output := seq(MaxOutputChars + 1, _ => 'a');
            Truncated(output) && !TruncatedAsWritten(output) &&
            Truncate(output, MaxOutputChars) != output
  {
    var output := seq(MaxOutputChars + 1, _ => 'a');
    var r := Truncate(output, MaxOutputChars);
    assert r[MaxOutputChars] == '…' != output[MaxOutputChars];
  }

  /** Apart from that length, the two flags agree. */
  lemma TruncatedAsWrittenElsewhere(output: string)
    requires |output| != MaxOutputChars + 1
    ensures TruncatedAsWritten(output) == Truncated(output)
  {
  }

  const MissingKeyMessage: string := "OPENAI_API_KEY não configurado"
  const NoTextMessage: string := "Modelo não retornou texto utilizável."
  const InvalidJsonPrefix: string := "Resposta inválida da OpenAI (JSON): "

  /** The error a failed HTTP reply raises: its status and at most 500
      characters of its body. */
  function HttpError(reply: HttpReply): (e: Thrown)
    ensures StartsWith(e.message, "OpenAI error " + NatToString(reply.status) + ": ")
  {
    var head := "OpenAI error " + NatToString(reply.status) + ": ";
    assert (head + Truncate(reply.body, MaxErrorChars))[..|head|] == head;
    Thrown(head + Truncate(reply.body, MaxErrorChars), 0)
  }

  /** `callModel` from the point the HTTP reply is in hand: `apiKey` is the
      configured key ("" when unset), `model` the configured model name or
      "" and `elapsedMs` the measured duration. */
  function CallModel(apiKey: string, model: string, reply: HttpReply, parse: Parser,
                     meta: seq<(string, JVal)>, elapsedMs: real): (r: Result<Completion, Thrown>)
    ensures apiKey == [] ==> r == Failure(Thrown(MissingKeyMessage, 0))
    ensures apiKey != [] && !reply.ok ==> r == Failure(HttpError(reply))
    ensures r.Success? ==> r.value.text != [] && |r.value.text| <= MaxOutputChars + 1
    ensures r.Success? ==> r.value.model == (if model != [] then model else DefaultModel)
    ensures r.Success? ==> Lookup(r.value.meta, "truncated").Some? && Lookup(r.value.meta, "elapsedMs") == Some(JNum(elapsedMs))
    ensures r.Success? ==> forall k :: k != "truncated" && k != "elapsedMs" ==> Lookup(r.value.meta, k) == Lookup(meta, k)
    ensures apiKey != [] && reply.ok && parse(reply.body).Failure? ==>
              r == Failure(Thrown(InvalidJsonPrefix + parse(reply.body).error, 0))
    ensures apiKey != [] && reply.ok && parse(reply.body).Success? && ExtractOutputText(parse(reply.body).value).Failure? ==>
              r == Failure(ExtractOutputText(parse(reply.body).value).error)
    ensures apiKey != [] && reply.ok && parse(reply.body).Success? && ExtractOutputText(parse(reply.body).value) == Success("") ==>
              r == Failure(Thrown(NoTextMessage, 0))
  {
    if apiKey == [] then Failure(Thrown(MissingKeyMessage, 0))
    else if !reply.ok then Failure(HttpError(reply))
    else
      match parse(reply.body)
      case Failure(msg) => Failure(Thrown(InvalidJsonPrefix + msg, 0))
      case Success(json) =>
        match ExtractOutputText(json)
        case Failure(e) => Failure(e)
        case Success(output) =>
          if output == [] then Failure(Thrown(NoTextMessage, 0))
          else
            var text := Truncate(output, MaxOutputChars);
            var extra := [("elapsedMs", JNum(elapsedMs)), ("truncated", JBool(TruncatedAsWritten(output)))];
            assert Keys(extra) == ["elapsedMs", "truncated"];
            SpreadTwo(meta, "elapsedMs", JNum(elapsedMs), "truncated", JBool(TruncatedAsWritten(output)));
            Success(Completion(if model != [] then model else DefaultModel, text, Spread(meta, extra)))
  }

  /** A successful call carries the start of the model's text, unclipped up
      to 25000 characters, and flags the cut as the code computes it: the
      intended flag at every length but 25001. */
  lemma CallModelText(apiKey: string, model: string, reply: HttpReply, parse: Parser,
                      meta: seq<(string, JVal)>, elapsedMs: real)
    requires CallModel(apiKey, model, reply, parse, meta, elapsedMs).Success?
    ensures var json := parse(reply.body).value;
            var output := ExtractOutputText(json).value;
            var r := CallModel(apiKey, model, reply, parse, meta, elapsedMs).value;
            output != [] && IsTrimmed(output) &&
            r.text == Truncate(output, MaxOutputChars) &&
            Lookup(r.meta, "truncated") == Some(JBool(TruncatedAsWritten(output))) &&
            (|output| != MaxOutputChars + 1 ==> Lookup(r.meta, "truncated") == Some(JBool(Truncated(output))))
  {
    var json := parse(reply.body).value;
    var output := ExtractOutputText(json).value;
    SpreadTwo(meta, "elapsedMs", JNum(elapsedMs), "truncated", JBool(TruncatedAsWritten(output)));
    if |output| != MaxOutputChars + 1 {
      TruncatedAsWrittenElsewhere(output);
    }
  }
}
