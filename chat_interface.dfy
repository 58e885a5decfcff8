/**
 * ChatInterface.tsx: the server-status indicator fed by the health poll, and the chat panel's
 * submit cycle. The network answers are inputs: one health reply or one generate reply per call.
 */
module Interface {

  import opened Wrappers
  import opened Strings
  import opened Thought
  import Sessions

  /** The `status` state of `ServerStatus`. */
  datatype Status = Checking | Online | Error | Offline

  /** The string the component stores for each status. */
  function StatusName(s: Status): (name: string)
    ensures name != [] && forall i | 0 <= i < |name| :: 'a' <= name[i] <= 'z'
  {
    match s
    case Checking => "checking"
    case Online => "online"
    case Error => "error"
    case Offline => "offline"
  }

  /** `getStatusColor`. */
  function StatusColor(s: Status, modelLoaded: bool): (color: string) {
    match s
    case Online => if modelLoaded then "bg-green-500" else "bg-yellow-500"
    case Offline => "bg-red-500"
    case Error => "bg-red-500"
    case Checking => "bg-gray-500"
  }

  /** `getStatusText`. */
  function StatusText(s: Status, modelLoaded: bool): (text: string) {
    if s == Online then (if modelLoaded then "Server Online" else "Model Loading")
    else "Server " + Capitalize(StatusName(s))
  }

  /** The badge's `variant`. */
  function BadgeVariant(s: Status): (variant: string) {
    if s == Online then "default" else "secondary"
  }

  /** The text for each state, written out. */
  lemma StatusTexts(loaded: bool)
    ensures StatusText(Online, true) == "Server Online"
    ensures StatusText(Online, false) == "Model Loading"
    ensures StatusText(Checking, loaded) == "Server Checking"
    ensures StatusText(Error, loaded) == "Server Error"
    ensures StatusText(Offline, loaded) == "Server Offline"
  {
    CheckingCapitalized();
    ErrorCapitalized();
    OfflineCapitalized();
  }

  lemma CheckingCapitalized()
    ensures Capitalize("checking") == "Checking"
  {
    assert Capitalize("checking")[0] == 'C';
  }

  lemma ErrorCapitalized()
    ensures Capitalize("error") == "Error"
  {
    assert Capitalize("error")[0] == 'E';
  }

  lemma OfflineCapitalized()
    ensures Capitalize("offline") == "Offline"
  {
    assert Capitalize("offline")[0] == 'O';
  }

  /** The text tells every status apart, and for an online server whether the model is loaded. */
  lemma StatusTextInjective(s: Status, a: bool, t: Status, b: bool)
    requires StatusText(s, a) == StatusText(t, b)
    ensures s == t && (s == Online ==> a == b)
  {
    StatusTexts(a);
    StatusTexts(b);
  }

  /**
   * The colour agrees with the text: green only for "Server Online", yellow only for "Model
   * Loading", red for an error or offline server, and gray while the first check is pending.
   */
  lemma ColorMatchesText(s: Status, loaded: bool)
    ensures StatusColor(s, loaded) == "bg-green-500" <==> StatusText(s, loaded) == "Server Online"
    ensures StatusColor(s, loaded) == "bg-yellow-500" <==> StatusText(s, loaded) == "Model Loading"
    ensures StatusColor(s, loaded) == "bg-red-500" <==>
      (StatusText(s, loaded) == "Server Error" || StatusText(s, loaded) == "Server Offline")
    ensures StatusColor(s, loaded) == "bg-gray-500" <==> StatusText(s, loaded) == "Server Checking"
    ensures BadgeVariant(s) == "default" <==> StatusColor(s, loaded) in {"bg-green-500", "bg-yellow-500"}
  {
    StatusTexts(loaded);
  }

  /**
   * One health check as the component sees it: an answer whose body parsed, with `response.ok`
   * and the truthiness of `data.model_loaded`, or an exception from `fetch` or `response.json()`.
   */
  datatype HealthReply = Answered(ok: bool, modelLoaded: bool) | Threw

  /** `ServerStatus`'s state and the effect of each `checkHealth` run. */
  class ServerStatus {
    var status: Status
    var modelLoaded: bool

    constructor ()
      ensures status == Checking && !modelLoaded
    {
      status := Checking;
      modelLoaded := false;
    }

    /**
     * An ok answer sets "online" and the loaded flag; a non-ok answer sets "error" and an
     * exception "offline", both keeping the flag. No answer leads back to "checking".
     */
    method ApplyHealth(reply: HealthReply)
      modifies this
      ensures reply.Answered? && reply.ok ==> status == Online && modelLoaded == reply.modelLoaded
      ensures reply.Answered? && !reply.ok ==> status == Error && modelLoaded == old(modelLoaded)
      ensures reply.Threw? ==> status == Offline && modelLoaded == old(modelLoaded)
      ensures status != Checking
    {
      match reply {
        case Answered(ok, loaded) =>
          if ok {
            status := Online;
            modelLoaded := loaded;
          } else {
            status := Error;
          }
        case Threw =>
          status := Offline;
      }
    }
  }

  /** A message of the panel; `content` is absent when the reply carried no text. */
  datatype Line = Line(role: Role, content: Option<string>)

  const ApologyText := "I apologize, but I encountered an error generating a response. Please try again."

  /** The JSON body the panel posts to `/api/generate`. */
  datatype GenerateRequest = GenerateRequest(prompt: string, stream: bool, maxTokens: nat, temperature: real)

  /**
   * The outcome of the generate call: an ok response with the string values, if any, of
   * `data.text` and `data.choices[0].text`; a non-ok response; or an exception.
   */
  datatype GenerateReply = OkBody(text: Option<string>, firstChoiceText: Option<string>) | NotOk | Failed

  /** `data.text || data.choices?.[0]?.text`. */
  function ReplyContent(text: Option<string>, firstChoiceText: Option<string>): (c: Option<string>)
    ensures text.Some? && text.value != "" ==> c == text
    ensures (text.None? || text.value == "") ==> c == firstChoiceText
  {
    if text.Some? && text.value != "" then text else firstChoiceText
  }

  /** The assistant message an outcome appends. */
  function ReplyLine(reply: GenerateReply): (l: Line)
    ensures l.role == Assistant
    ensures reply.OkBody? ==> l.content == ReplyContent(reply.text, reply.firstChoiceText)
    ensures !reply.OkBody? ==> l.content == Some(ApologyText)
  {
    match reply
    case OkBody(text, first) => Line(Assistant, ReplyContent(text, first))
    case _ => Line(Assistant, Some(ApologyText))
  }

  /** `disabled={isLoading || !input.trim()}`, which is also the guard of `handleSubmit`. */
  predicate SendDisabled(isLoading: bool, input: string) {
    isLoading || Trim(input) == ""
  }

  /** Send is disabled exactly while loading or when the input is all white space. */
  lemma SendDisabledIff(isLoading: bool, input: string)
    ensures SendDisabled(isLoading, input) <==> isLoading || forall i | 0 <= i < |input| :: IsSpace(input[i])
  {
    TrimEmptyIff(input);
  }

  class ChatInterface {
    var messages: seq<Line>
    var input: string
    var isLoading: bool
    /** `newMessages` of the request in flight: the list the reply is appended to. */
    var pending: seq<Line>

    /** While a request is in flight the shown list is the one it will extend. */
    predicate Valid()
      reads this
    {
      isLoading ==> messages == pending
    }

    constructor ()
      ensures Valid()
      ensures messages == [Line(Assistant, Some(Sessions.GreetingText))] && input == "" && !isLoading
    {
      messages := [Line(Assistant, Some(Sessions.GreetingText))];
      input := "";
      isLoading := false;
      pending := [];
    }

    /** The input's `onChange`. */
    method SetInput(text: string)
      requires Valid()
      modifies this
      ensures Valid()
      ensures input == text
      ensures messages == old(messages) && isLoading == old(isLoading) && pending == old(pending)
    {
      input := text;
    }

    /**
     * The synchronous part of `handleSubmit`: a blank input or a request in flight changes
     * nothing; otherwise the user's message is appended, the input cleared, loading set, and the
     * request to send is returned.
     */
    method Submit() returns (request: Option<GenerateRequest>)
      requires Valid()
      modifies this
      ensures Valid()
      ensures request.None? <==> SendDisabled(old(isLoading), old(input))
      ensures request.None? ==>
        messages == old(messages) && input == old(input) && isLoading == old(isLoading) && pending == old(pending)
      ensures request.Some? ==>
        request.value == GenerateRequest(old(input), false, 512, 0.7) &&
        messages == old(messages) + [Line(User, Some(old(input)))] && input == "" && isLoading
    {
      if Trim(input) == "" || isLoading {
        return None;
      }
      var prompt := input;
      var newMessages := messages + [Line(User, Some(prompt))];
      messages := newMessages;
      pending := newMessages;
      input := "";
      isLoading := true;
      request := Some(GenerateRequest(prompt, false, 512, 0.7));
    }

    /**
     * The rest of `handleSubmit` once the call settles: exactly one assistant message follows the
     * earlier ones, and loading ends whatever the outcome.
     */
    method Receive(reply: GenerateReply)
      requires Valid() && isLoading
      modifies this
      ensures Valid()
      ensures messages == old(messages) + [ReplyLine(reply)]
      ensures !isLoading && input == old(input)
    {
      messages := pending + [ReplyLine(reply)];
      isLoading := false;
    }

    /** `handleKeyDown`: Enter without Shift submits; any other key does nothing here. */
    method KeyDown(isEnter: bool, shift: bool) returns (request: Option<GenerateRequest>)
      requires Valid()
      modifies this
      ensures Valid()
      ensures !(isEnter && !shift) ==> (request.None? &&
        messages == old(messages) && input == old(input) && isLoading == old(isLoading) && pending == old(pending))
      ensures isEnter && !shift ==> (request.None? <==> SendDisabled(old(isLoading), old(input)))
      ensures isEnter && !shift && request.None? ==>
        messages == old(messages) && input == old(input) && isLoading == old(isLoading) && pending == old(pending)
      ensures isEnter && !shift && request.Some? ==>
        request.value == GenerateRequest(old(input), false, 512, 0.7) &&
        messages == old(messages) + [Line(User, Some(old(input)))] && input == "" && isLoading
    {
      if isEnter && !shift {
        request := Submit();
      } else {
        request := None;
      }
    }
  }

  /** Two submits in a row send one request: the first sets loading, which blocks the second. */
  method SubmitTwice(c: ChatInterface) returns (first: Option<GenerateRequest>, second: Option<GenerateRequest>)
    requires c.Valid()
    modifies c
    ensures first.Some? ==> second.None?
  {
    first := c.Submit();
    second := c.Submit();
  }
}
