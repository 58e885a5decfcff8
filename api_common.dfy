/**
 * What the two Flask blueprints (backend/python/api/routes.py and python/api/routes.py) share:
 * the replies a view returns, the language model seen as three opaque operations, the global
 * `model` with `init_model`, and the `tokenize` and `health` views, which are the same in both.
 */
module Api {

  import opened Wrappers
  import opened Json

  /** The exception classes of python/utils/errors.py, and every other exception. */
  datatype ErrorKind = ModelError | ConfigError | ApiError | OtherError

  /** A raised exception: its class and `str(e)`. */
  datatype Exception = Exception(kind: ErrorKind, message: string)

  /** The keyword arguments the `generate` view passes on to the model. */
  datatype Params = Params(maxTokens: Json, temperature: Json, topP: Json, stream: Json)

  /**
   * What iterating over a streamed generation produces: the chunks yielded, then possibly an
   * exception that ended the iteration.
   */
  datatype ChunkRun = ChunkRun(chunks: seq<Json>, failure: Option<Exception>)

  /** The non-streaming generation call: a value for `jsonify`, or an exception. */
  datatype Completion = Completed(body: Json) | CompletionRaised(failure: Exception)

  /** `model.tokenize(text)`: the token ids, or an exception. */
  datatype Tokenization = Tokens(ids: seq<int>) | TokenizeRaised(failure: Exception)

  /** The loaded `LLMModel`, by what its methods return for given arguments. */
  datatype Llm = Llm(
    stream: (Json, Params) -> ChunkRun,
    complete: (Json, Params) -> Completion,
    tokenize: Json -> Tokenization)

  /** What a view hands back to Flask. */
  datatype Reply =
    | JsonReply(status: nat, body: Json)          // `jsonify(body), status`
    | EventStream(frames: seq<string>)             // a 200 `text/event-stream` response
    | TextStream(text: string, aborted: bool)      // a streamed body, cut short when `aborted`
    | Unhandled(failure: Exception)                // an exception escapes the view: Flask's own 500

  /** `{key: message}`. */
  function ErrorBody(key: string, message: string): (j: Json)
    ensures j.JObj? && j.fields.Keys == {key} && j.fields[key] == JStr(message)
  {
    JObj(map[key := JStr(message)])
  }

  const NotInitialized := ErrorBody("error", "Model not initialized")

  /** `not data or key not in data` for a body that is absent or a JSON object. */
  predicate Missing(data: Option<map<string, Json>>, key: string) {
    data.None? || key !in data.value
  }

  /**
   * `tokenize`: 500 without a model, 400 without "text", the token ids on success, 500 under
   * "tokenization error" for a ModelError; any other exception is not caught.
   */
  function Tokenize(model: Option<Llm>, data: Option<map<string, Json>>): (r: Reply)
    ensures model.None? ==> r == JsonReply(500, NotInitialized)
    ensures model.Some? && Missing(data, "text") ==> r == JsonReply(400, ErrorBody("error", "Missing text"))
    ensures model.Some? && !Missing(data, "text") ==>
      var t := model.value.tokenize(data.value["text"]);
      (t.Tokens? ==> r == JsonReply(200, JObj(map["tokens" := JArr(IdsJson(t.ids))]))) &&
      (t.TokenizeRaised? && t.failure.kind == ModelError ==>
        r == JsonReply(500, ErrorBody("tokenization error", t.failure.message))) &&
      (t.TokenizeRaised? && t.failure.kind != ModelError ==> r == Unhandled(t.failure))
  {
    if model.None? then JsonReply(500, NotInitialized)
    else if Missing(data, "text") then JsonReply(400, ErrorBody("error", "Missing text"))
    else
      match model.value.tokenize(data.value["text"])
      case Tokens(ids) => JsonReply(200, JObj(map["tokens" := JArr(IdsJson(ids))]))
      case TokenizeRaised(f) =>
        if f.kind == ModelError then JsonReply(500, ErrorBody("tokenization error", f.message))
        else Unhandled(f)
  }

  /** The token ids as a JSON list. */
  function IdsJson(ids: seq<int>): (js: seq<Json>)
    ensures |js| == |ids| && forall i | 0 <= i < |ids| :: js[i] == JNum(ids[i] as real)
  {
    seq(|ids|, i requires 0 <= i < |ids| => JNum(ids[i] as real))
  }

  /** `health`: always 200 and "healthy", with `model_loaded` telling whether a model is set. */
  function Health(model: Option<Llm>): (r: Reply)
    ensures r.JsonReply? && r.status == 200 && r.body.JObj?
    ensures "model_loaded" in r.body.fields && r.body.fields["model_loaded"] == JBool(model.Some?)
    ensures "status" in r.body.fields && r.body.fields["status"] == JStr("healthy")
  {
    JsonReply(200, JObj(map["status" := JStr("healthy"), "model_loaded" := JBool(model.Some?)]))
  }

  /** The health body's `model_loaded` is true exactly when a model is set. */
  lemma HealthModelLoaded(model: Option<Llm>)
    ensures PyTruthy(Health(model).body.fields["model_loaded"]) <==> model.Some?
  {
  }

  /** The module-level `model` of a blueprint. */
  class Server {
    var model: Option<Llm>

    constructor ()
      ensures model.None?
    {
      model := None;
    }

    /**
     * `init_model`: a model that loads replaces the global; a load failure leaves the global as
     * it was and raises a ModelError whose text starts "Failed to initialize model: ".
     * `load` is the `LLMModel` constructor for the given path and context size.
     */
    method InitModel(modelPath: string, nCtx: nat, load: (string, nat) -> Result<Llm, string>)
      returns (raised: Option<Exception>)
      modifies this
      ensures load(modelPath, nCtx).Success? ==> raised.None? && model == Some(load(modelPath, nCtx).value)
      ensures load(modelPath, nCtx).Failure? ==> (model == old(model) &&
        raised == Some(Exception(ModelError, "Failed to initialize model: " + load(modelPath, nCtx).error)))
    {
      match load(modelPath, nCtx) {
        case Success(llm) =>
          model := Some(llm);
          raised := None;
        case Failure(e) =>
          raised := Some(Exception(ModelError, "Failed to initialize model: " + e));
      }
    }
  }
}
