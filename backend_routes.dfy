/**
 * backend/python/api/routes.py: the `generate` view, whose streaming branch frames every chunk
 * as a Server-Sent Event and always ends the stream with a `[DONE]` event. `json.dumps` is the
 * parameter `dumps`.
 */
module BackendRoutes {

  import opened Wrappers
  import opened Json
  import opened Api

  /** `data.get(key, default)` for the four parameters, with this blueprint's defaults. */
  function GenerateParams(d: map<string, Json>): (p: Params)
    ensures "max_tokens" in d ==> p.maxTokens == d["max_tokens"]
    ensures "max_tokens" !in d ==> p.maxTokens == JNum(4096.0)
    ensures "temperature" in d ==> p.temperature == d["temperature"]
    ensures "temperature" !in d ==> p.temperature == JNum(0.7)
    ensures "top_p" in d ==> p.topP == d["top_p"]
    ensures "top_p" !in d ==> p.topP == JNum(0.95)
    ensures "stream" in d ==> p.stream == d["stream"]
    ensures "stream" !in d ==> p.stream == JBool(false)
  {
    Params(Get(d, "max_tokens", JNum(4096.0)), Get(d, "temperature", JNum(0.7)),
           Get(d, "top_p", JNum(0.95)), Get(d, "stream", JBool(false)))
  }

  /** One event: `f"data: {payload}\n\n"`. */
  function DataFrame(payload: string): (frame: string) {
    "data: " + payload + "\n\n"
  }

  const DoneFrame := "data: [DONE]\n\n"

  /** The payload of an event, between `data: ` and the blank line. */
  function Payload(frame: string): (payload: string)
    requires |frame| >= 8
  {
    frame[6..|frame| - 2]
  }

  /** Reading the payload back out of an event gives what was framed. */
  lemma PayloadOfDataFrame(p: string)
    ensures |DataFrame(p)| >= 8 && Payload(DataFrame(p)) == p
  {
    var f := DataFrame(p);
    assert f[6..|f| - 2] == p;
  }

  /** The closing event is the event of the payload `[DONE]`, and only of it. */
  lemma DataFrameIsDone(p: string)
    ensures DataFrame(p) == DoneFrame <==> p == "[DONE]"
  {
    PayloadOfDataFrame(p);
    PayloadOfDataFrame("[DONE]");
  }

  /** The event sent for an exception raised while iterating: `{"error": str(e)}`. */
  function ErrorFrame(e: Exception, dumps: Json -> string): (frame: string) {
    DataFrame(dumps(ErrorBody("error", e.message)))
  }

  /**
   * The events `generate_stream` yields: one per chunk in order, then one error event when the
   * iteration raised, then `[DONE]` from the `finally` clause.
   */
  function StreamFrames(run: ChunkRun, dumps: Json -> string): (frames: seq<string>) {
    seq(|run.chunks|, i requires 0 <= i < |run.chunks| => DataFrame(dumps(run.chunks[i])))
    + (if run.failure.Some? then [ErrorFrame(run.failure.value, dumps)] else [])
    + [DoneFrame]
  }

  /** `generate_stream`, as the loop that builds the event list. */
  method GenerateStream(run: ChunkRun, dumps: Json -> string) returns (frames: seq<string>)
    ensures frames == StreamFrames(run, dumps)
  {
    frames := [];
    var i := 0;
    while i < |run.chunks|
      invariant 0 <= i <= |run.chunks|
      invariant |frames| == i
      invariant forall j | 0 <= j < i :: frames[j] == DataFrame(dumps(run.chunks[j]))
    {
      frames := frames + [DataFrame(dumps(run.chunks[i]))];
      i := i + 1;
    }
    if run.failure.Some? {
      frames := frames + [ErrorFrame(run.failure.value, dumps)];
    }
    frames := frames + [DoneFrame];
  }

  /**
   * The shape of a stream: chunk `i` is event `i`, an exception adds exactly one error event
   * after them, and the last event is `[DONE]`.
   */
  lemma StreamFramesShape(run: ChunkRun, dumps: Json -> string)
    ensures var frames := StreamFrames(run, dumps);
      |frames| == |run.chunks| + (if run.failure.Some? then 1 else 0) + 1 &&
      (forall i | 0 <= i < |run.chunks| :: frames[i] == DataFrame(dumps(run.chunks[i]))) &&
      (run.failure.Some? ==> frames[|run.chunks|] == ErrorFrame(run.failure.value, dumps)) &&
      frames[|frames| - 1] == DoneFrame
  {
  }

  /**
   * When `dumps` never prints `[DONE]` (no JSON text is that string), the stream holds exactly
   * one `[DONE]` event, its last.
   */
  lemma StreamDoneOnlyLast(run: ChunkRun, dumps: Json -> string)
    requires forall j :: dumps(j) != "[DONE]"
    ensures var frames := StreamFrames(run, dumps);
      frames[|frames| - 1] == DoneFrame && forall i | 0 <= i < |frames| - 1 :: frames[i] != DoneFrame
  {
    var frames := StreamFrames(run, dumps);
    forall i | 0 <= i < |frames| - 1 ensures frames[i] != DoneFrame {
      if i < |run.chunks| {
        DataFrameIsDone(dumps(run.chunks[i]));
      } else {
        DataFrameIsDone(dumps(ErrorBody("error", run.failure.value.message)));
      }
    }
  }

  /**
   * `generate`: 500 without a model (checked first), 400 without a prompt, an event stream when
   * the `stream` parameter is truthy, and otherwise the completion, or 500 under "error" for any
   * exception; no exception escapes.
   */
  function Generate(model: Option<Llm>, data: Option<map<string, Json>>, dumps: Json -> string): (r: Reply)
    ensures model.None? ==> r == JsonReply(500, NotInitialized)
    ensures model.Some? && Missing(data, "prompt") ==> r == JsonReply(400, ErrorBody("error", "Missing prompt"))
    ensures r.EventStream? <==> model.Some? && !Missing(data, "prompt") && PyTruthy(GenerateParams(data.value).stream)
    ensures r.EventStream? ==>
      r.frames == StreamFrames(model.value.stream(data.value["prompt"], GenerateParams(data.value)), dumps)
    ensures model.Some? && !Missing(data, "prompt") && !PyTruthy(GenerateParams(data.value).stream) ==>
      var c := model.value.complete(data.value["prompt"], GenerateParams(data.value));
      (c.Completed? ==> r == JsonReply(200, c.body)) &&
      (c.CompletionRaised? ==> r == JsonReply(500, ErrorBody("error", c.failure.message)))
    ensures !r.Unhandled? && !r.TextStream?
    ensures r.JsonReply? && r.status != 200 ==> r.status in {400, 500} && r.body.JObj? && r.body.fields.Keys == {"error"}
  {
    if model.None? then JsonReply(500, NotInitialized)
    else if Missing(data, "prompt") then JsonReply(400, ErrorBody("error", "Missing prompt"))
    else
      var d := data.value;
      var p := GenerateParams(d);
      if PyTruthy(p.stream) then EventStream(StreamFrames(model.value.stream(d["prompt"], p), dumps))
      else
        match model.value.complete(d["prompt"], p)
        case Completed(body) => JsonReply(200, body)
        case CompletionRaised(e) => JsonReply(500, ErrorBody("error", e.message))
  }
}
