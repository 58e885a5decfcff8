/**
 * The health poll end to end: what `health` of either blueprint answers, as the status indicator
 * of ChatInterface.tsx shows it.
 */
module HealthCheck {

  import opened Wrappers
  import opened Json
  import opened Api
  import opened Interface

  /**
   * `checkHealth`'s reading of a reply: a non-2xx status is a non-ok answer; a 2xx body of `null`
   * makes `data.model_loaded` throw; otherwise the flag is the JavaScript truthiness of
   * `data.model_loaded`, which is `undefined`, and so false, when the field is missing or the body
   * is not an object.
   */
  function Seen(r: Reply): (h: HealthReply)
    requires r.JsonReply?
    ensures !(200 <= r.status < 300) ==> h.Answered? && !h.ok
    ensures 200 <= r.status < 300 ==> (h.Threw? <==> r.body.JNull?)
    ensures 200 <= r.status < 300 && h.Answered? ==> (h.ok &&
      (h.modelLoaded <==> r.body.JObj? && "model_loaded" in r.body.fields && JsTruthy(r.body.fields["model_loaded"])))
  {
    if !(200 <= r.status < 300) then Answered(false, false)
    else
      match r.body
      case JNull => Threw
      case JObj(fields) => Answered(true, "model_loaded" in fields && JsTruthy(fields["model_loaded"]))
      case _ => Answered(true, false)
  }

  /** An empty list or object under `model_loaded` counts as a loaded model in the browser. */
  lemma EmptyContainerSeenLoaded(status: nat, v: Json)
    requires 200 <= status < 300 && (v == JArr([]) || v == JObj(map[]))
    ensures Seen(JsonReply(status, JObj(map["model_loaded" := v]))) == Answered(true, true)
    ensures !PyTruthy(v)
  {
  }

  /**
   * After a successful poll the indicator reads "Server Online" in green exactly when the server
   * has a model, and "Model Loading" in yellow otherwise.
   */
  lemma HealthShownAs(model: Option<Llm>)
    ensures var h := Seen(Health(model));
      h.ok &&
      (StatusText(Online, h.modelLoaded) == "Server Online" <==> model.Some?) &&
      (StatusText(Online, h.modelLoaded) == "Model Loading" <==> model.None?) &&
      (StatusColor(Online, h.modelLoaded) == "bg-green-500" <==> model.Some?)
  {
    StatusTexts(true);
  }
}
