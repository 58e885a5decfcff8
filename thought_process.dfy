/**
 * The chat message shape shared by the front end (`ExtendedChatMessage`) and the rule by which
 * `ChatMessageItem` in ThoughtProcess.tsx chooses what to show for a message.
 */
module Thought {

  import opened Wrappers
  import opened Strings

  datatype Role = User | Assistant

  /** `string | ChatMessageContent`: plain text, or an optional thought together with a response. */
  datatype Content = Plain(text: string) | Structured(thought: Option<string>, response: string)

  /** `ExtendedChatMessage`. */
  datatype Message = Message(role: Role, content: Content)

  const NoResponseText := "No response generated. Please try again."

  /** `content.thought && ...`: the thought panel is rendered for a present, non-empty thought. */
  predicate ShowsThought(thought: Option<string>) {
    thought.Some? && thought.value != ""
  }

  /** `response || "No response generated. Please try again."`. */
  function ResponseOrFallback(response: string): (shown: string) {
    if response != "" then response else NoResponseText
  }

  /**
   * What `ChatMessageItem` renders: the plain bubble with its text; a render error, when a user
   * message's object content is handed to React as a child, which React refuses by throwing;
   * or an optional thought panel above the response.
   */
  datatype ItemView =
    | PlainItem(role: Role, text: string)
    | ObjectChildError
    | ThoughtItem(panel: Option<string>, response: string)

  /**
   * `ChatMessageItem`: a user message or a message with string content takes the plain branch,
   * which shows string content as it is and cannot render an object; otherwise the response, or
   * the fallback text when it is empty, is shown under a thought panel that appears only for a
   * non-empty thought.
   */
  function MessageItem(m: Message): (v: ItemView)
    ensures v.PlainItem? <==> m.content.Plain?
    ensures v.PlainItem? ==> v.role == m.role && v.text == m.content.text
    ensures v.ObjectChildError? <==> (m.role == User && m.content.Structured?)
    ensures v.ThoughtItem? <==> (m.role != User && m.content.Structured?)
    ensures v.ThoughtItem? ==> v.response != ""
    ensures v.ThoughtItem? && m.content.response != "" ==> v.response == m.content.response
    ensures v.ThoughtItem? && m.content.response == "" ==> v.response == NoResponseText
    ensures v.ThoughtItem? ==> (v.panel.Some? <==> ShowsThought(m.content.thought))
    ensures v.ThoughtItem? && v.panel.Some? ==> v.panel == m.content.thought
  {
    if m.role == User || m.content.Plain? then
      match m.content
      case Plain(text) => PlainItem(m.role, text)
      case Structured(_, _) => ObjectChildError
    else
      var c := m.content;
      ThoughtItem(if ShowsThought(c.thought) then c.thought else None, ResponseOrFallback(c.response))
  }

  /** `duration || "..."` in the thought panel's heading, for a duration in whole seconds. */
  function DurationLabel(duration: Option<int>): (shown: string)
    ensures shown == "..." <==> (duration == None || duration == Some(0))
    ensures duration.Some? && duration.value != 0 ==> shown == IntToString(duration.value)
  {
    if duration.None? || duration.value == 0 then "..." else IntToString(duration.value)
  }
}
