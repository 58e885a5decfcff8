/**
 * python/api/routes.py: the `generate` view of the second blueprint, which streams the bare text
 * of each chunk (no event framing, no closing event) and sorts exceptions by class.
 */
module PythonRoutes {

  import opened Wrappers
  import opened Json
  import opened Api

  /** `data.get(key, default)` for the four parameters, with this blueprint's defaults. */
  function GenerateParams(d: map<string, Json>): (p: Params)
    ensures "max_tokens" in d ==> p.maxTokens == d["max_tokens"]
    ensures "max_tokens" !in d ==> p.maxTokens == JNum(512.0)
    ensures "temperature" in d ==> p.temperature == d["temperature"]
    ensures "temperature" !in d ==> p.temperature == JNum(0.7)
    ensures "top_p" in d ==> p.topP == d["top_p"]
    ensures "top_p" !in d ==> p.topP == JNum(0.95)
    ensures "stream" in d ==> p.stream == d["stream"]
    ensures "stream" !in d ==> p.stream == JBool(false)
  {
    Params(Get(d, "max_tokens", JNum(512.0)), Get(d, "temperature", JNum(0.7)),
           Get(d, "top_p", JNum(0.95)), Get(d, "stream", JBool(false)))
  }

  /**
   * `chunk["choices"][0]["text"]` when that path exists and holds a string; any other chunk makes
   * the lookup raise, or yields a value the response cannot write.
   */
  function ChoiceText(chunk: Json): (t: Option<string>)
    ensures t.Some? <==> (chunk.JObj? && "choices" in chunk.fields && chunk.fields["choices"].JArr? &&
      |chunk.fields["choices"].items| > 0 && chunk.fields["choices"].items[0].JObj? &&
      "text" in chunk.fields["choices"].items[0].fields &&
      chunk.fields["choices"].items[0].fields["text"].JStr?)
    ensures t.Some? ==> JStr(t.value) == chunk.fields["choices"].items[0].fields["text"]
  {
    if chunk.JObj? && "choices" in chunk.fields then
      var choices := chunk.fields["choices"];
      if choices.JArr? && |choices.items| > 0 && choices.items[0].JObj? && "text" in choices.items[0].fields then
        var text := choices.items[0].fields["text"];
        if text.JStr? then Some(text.s) else None
      else None
    else None
  }

  /**
   * The text streamed for a list of chunks: the chunk texts in order, stopping at the first
   * chunk without one, and whether the stream stopped there.
   */
  function StreamedText(chunks: seq<Json>): (r: (string, bool))
    decreases |chunks|
  {
    if chunks == [] then ("", false)
    else
      match ChoiceText(chunks[0])
      case None => ("", true)
      case Some(t) =>
        var rest := StreamedText(chunks[1..]);
        (t + rest.0, rest.1)
  }

  /** The texts of chunks that all have one, joined together. */
  function ConcatTexts(chunks: seq<Json>): (text: string)
    requires forall i | 0 <= i < |chunks| :: ChoiceText(chunks[i]).Some?
    decreases |chunks|
  {
    if chunks == [] then "" else ChoiceText(chunks[0]).value + ConcatTexts(chunks[1..])
  }

  /**
   * When every chunk has its text the body is exactly their concatenation in order and nothing
   * stops the stream early.
   */
  lemma {:induction false} StreamedTextAllGood(chunks: seq<Json>)
    requires forall i | 0 <= i < |chunks| :: ChoiceText(chunks[i]).Some?
    ensures StreamedText(chunks) == (ConcatTexts(chunks), false)
    decreases |chunks|
  {
    if chunks != [] {
      assert ChoiceText(chunks[0]).Some?;
      assert forall i | 0 <= i < |chunks[1..]| :: chunks[1..][i] == chunks[i + 1];
      StreamedTextAllGood(chunks[1..]);
    }
  }

  /** A chunk without text ends the body: whatever follows it is never sent. */
  lemma {:induction false} StreamedTextStopsAtBadChunk(good: seq<Json>, bad: Json, rest: seq<Json>)
    requires forall i | 0 <= i < |good| :: ChoiceText(good[i]).Some?
    requires ChoiceText(bad).None?
    ensures StreamedText(good + [bad] + rest) == (ConcatTexts(good), true)
    decreases |good|
  {
    var s := good + [bad] + rest;
    if good == [] {
      assert s[0] == bad;
    } else {
      assert s[0] == good[0];
      assert s[1..] == good[1..] + [bad] + rest;
      assert forall i | 0 <= i < |good[1..]| :: good[1..][i] == good[i + 1];
      StreamedTextStopsAtBadChunk(good[1..], bad, rest);
    }
  }

  /**
   * `generate_stream`: the loop that writes each chunk's text until a chunk has none; the
   * stream is cut short by such a chunk or by an exception from the model.
   */
  method GenerateTextStream(run: ChunkRun) returns (text: string, aborted: bool)
    ensures text == StreamedText(run.chunks).0
    ensures aborted == (StreamedText(run.chunks).1 || run.failure.Some?)
  {
    text := "";
    var stopped := false;
    var i := 0;
    assert run.chunks[0..] == run.chunks;
    assert text + StreamedText(run.chunks).0 == StreamedText(run.chunks).0;
    while i < |run.chunks| && !stopped
      invariant 0 <= i <= |run.chunks|
      invariant !stopped ==> StreamedText(run.chunks) == (text + StreamedText(run.chunks[i..]).0, StreamedText(run.chunks[i..]).1)
      invariant stopped ==> StreamedText(run.chunks) == (text, true)
      decreases |run.chunks| - i
    {
      var rest := run.chunks[i..];
      assert rest[0] == run.chunks[i];
      assert rest[1..] == run.chunks[i + 1..];
      var after := StreamedText(rest[1..]);
      match ChoiceText(run.chunks[i]) {
        case None =>
          assert StreamedText(rest) == ("", true);
          assert text + "" == text;
          stopped := true;
        case Some(t) =>
          assert StreamedText(rest) == (t + after.0, after.1);
          assert text + (t + after.0) == (text + t) + after.0;
          text := text + t;
      }
      i := i + 1;
    }
    if !stopped {
      assert run.chunks[i..] == [];
      assert text + "" == text;
    }
    aborted := stopped || run.failure.Some?;
  }

  /** The key an exception from the non-streaming call is reported under. */
  function ErrorKey(kind: ErrorKind): (key: string)
    ensures key == "generation error" <==> kind == ModelError
    ensures key == "error" <==> kind != ModelError
  {
    if kind == ModelError then "generation error" else "error"
  }

  /**
   * `generate`: 500 without a model (checked first), 400 without a prompt, the streamed text when
   * the `stream` parameter is truthy, and otherwise the completion, or 500 under the key for the
   * exception's class.
   */
  function Generate(model: Option<Llm>, data: Option<map<string, Json>>): (r: Reply)
    ensures model.None? ==> r == JsonReply(500, NotInitialized)
    ensures model.Some? && Missing(data, "prompt") ==> r == JsonReply(400, ErrorBody("error", "Missing prompt"))
    ensures r.TextStream? <==> model.Some? && !Missing(data, "prompt") && PyTruthy(GenerateParams(data.value).stream)
    ensures r.TextStream? ==>
      var run := model.value.stream(data.value["prompt"], GenerateParams(data.value));
      r.text == StreamedText(run.chunks).0 && r.aborted == (StreamedText(run.chunks).1 || run.failure.Some?)
    ensures model.Some? && !Missing(data, "prompt") && !PyTruthy(GenerateParams(data.value).stream) ==>
      var c := model.value.complete(data.value["prompt"], GenerateParams(data.value));
      (c.Completed? ==> r == JsonReply(200, c.body)) &&
      (c.CompletionRaised? ==> r == JsonReply(500, ErrorBody(ErrorKey(c.failure.kind), c.failure.message)))
    ensures !r.Unhandled? && !r.EventStream?
    ensures r.JsonReply? && r.status != 200 ==> (r.status in {400, 500} && r.body.JObj? &&
      r.body.fields.Keys <= {"error", "generation error"})
  {
    if model.None? then JsonReply(500, NotInitialized)
    else if Missing(data, "prompt") then JsonReply(400, ErrorBody("error", "Missing prompt"))
    else
      var d := data.value;
      var p := GenerateParams(d);
      if PyTruthy(p.stream) then
        var run := model.value.stream(d["prompt"], p);
        var body := StreamedText(run.chunks);
        TextStream(body.0, body.1 || run.failure.Some?)
      else
        match model.value.complete(d["prompt"], p)
        case Completed(body) => JsonReply(200, body)
        case CompletionRaised(e) => JsonReply(500, ErrorBody(ErrorKey(e.kind), e.message))
  }
}
