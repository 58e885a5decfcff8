# LocalLLMClient: a Dafny model of the chat client and its Flask routes

LocalLLMClient is a browser chat front end (React, TypeScript) for a language model served
locally by a small Flask application. This project models its core in Dafny and proves
properties about that model:

- **Session store** (`Sessions`, chat_session_manager.dfy). This is `ChatSessionManager`: an
  ordered list of chat sessions, the id of the active session, and the copy of the list kept in
  browser storage. The class `ChatSessionManager` has one method per handler: mount, create,
  delete, update messages, rename, the `onMessagesUpdate` callback and a tab click. The
  filter, map, find and rename computations inside them are functions. The React save effect is
  the `Save` step that ends every handler that changes the list; a tab click only moves the
  active id and does not save.
- **Chat panel and status indicator** (`Interface`, chat_interface.dfy). This covers the submit
  guard of `ChatInterface`, the message appended for each outcome of the generate call, the
  loading flag and the Send-enabled rule. The status indicator is `ServerStatus`: how each
  health-check outcome sets its state, and the text, colour and badge shown for each state.
- **Message display** (`Thought`, thought_process.dfy; `Bubble`, chat_bubble.dfy). This covers
  the message datatype and the two `ChatMessageItem` components: their plain and structured
  branches, the empty-response fallback and the thought-panel rule. It also covers the duration
  label and the chain of LaTeX rewrites that `ChatBubble` applies before rendering:
  `preprocessLatex`, the "Final Answer:" special case, the unescaping and literal fix-ups, and
  the `$$…$$` display-math pass.
- **Flask routes** (`Api`, api_common.dfy; `BackendRoutes`, backend_routes.dfy; `PythonRoutes`,
  python_routes.dfy). This covers `init_model`, `tokenize` and `health`, which the two
  blueprints share. It also covers both `generate` views: their validation order, the parameter
  defaults, the error-key mapping, and the two streaming formats. The backend writes
  Server-Sent-Event frames ending in `[DONE]`; the other blueprint writes raw chunk text.
  `HealthCheck` (health_check.dfy) connects `health` to the status indicator.
- `Strings`, `Json` and `Wrappers` hold the JavaScript string operations, JSON values with
  Python and JavaScript truthiness, and `Option`/`Result`.

External effects are parameters or inputs of the model:

- **Time.** `Date.now()` is a `nat` parameter.
- **Browser storage.** Storage is a field holding the list it encodes, or nothing. What a mount
  finds there is the `Saved` input.
- **Network answers.** Each answer is a datatype: `HealthReply` and `GenerateReply`.
- **The language model.** It is the datatype `Llm`, whose three operations are function
  fields.
- **JSON encoding.** `json.dumps` is a function parameter.

Two facts about the code are worth stating outright:

- A session is named after its first **four** words, so "What is the capital of France please"
  becomes "What is the capital..." (`Sessions.SessionNameExample`).
- The health poll runs every 5000 ms. Timers are left out of the model.

One more behaviour is modelled as the code is written, because React captures state in the
handler's closure. When the only session is deleted, the session created in its place is named
from the count before the deletion, so it is "Chat 2", not "Chat 1"
(`Sessions.ChatSessionManager.DeleteSession`).

## Model

| member | source | states |
|---|---|---|
| Sessions.FindIndex | frontend/src/components/ChatSessionManager.tsx:141-143 | The index found holds a session with the id, and no earlier session has it; none is found exactly when no session carries the id |
| Sessions.WithoutId | frontend/src/components/ChatSessionManager.tsx:81-83 | The filtered list is no longer than the original and holds no session with the deleted id |
| Sessions.WithoutIdCount | frontend/src/components/ChatSessionManager.tsx:81-83 | Every session without the id keeps its number of occurrences, and every session with the id is removed |
| Sessions.WithoutIdAppend | frontend/src/components/ChatSessionManager.tsx:81-83 | The filter distributes over concatenation, so the remaining sessions keep their relative order |
| Sessions.WithoutIdUnchanged | frontend/src/components/ChatSessionManager.tsx:81-83 | The filter leaves the list as it is if and only if no session carries the id |
| Sessions.OtherIdSurvives | frontend/src/components/ChatSessionManager.tsx:81-90 | A session with a different id is still present after the delete, so an active id naming it stays valid |
| Sessions.WithoutIdIdempotent | frontend/src/components/ChatSessionManager.tsx:81-83 | Deleting the same id twice is the same as deleting it once |
| Sessions.CreateThenDelete | frontend/src/components/ChatSessionManager.tsx:59-84 | Deleting a session just placed in front of the list, as `createNewSession` does, gives back the earlier list when its id was unused |
| Sessions.UpdateWhere | frontend/src/components/ChatSessionManager.tsx:107-111 | The list keeps its length; each session with the id gets the change, and every other session is untouched |
| Sessions.UpdateWhereAbsent | frontend/src/components/ChatSessionManager.tsx:107-111 | A change for an id that no session carries leaves the whole list unchanged |
| Sessions.UpdateWhereFind | frontend/src/components/ChatSessionManager.tsx:107-111 | After a change, a lookup by any id finds the same index as before; that index holds the changed session for the changed id and the untouched session for any other id |
| Sessions.FirstUserIndex | frontend/src/components/ChatSessionManager.tsx:120 | The index found holds the first user message; none is found exactly when there is no user message |
| Sessions.SessionName | frontend/src/components/ChatSessionManager.tsx:125-127 | Definition: the first four pieces of `text.split(" ")` joined by spaces, plus "..." when there were more than four. Its properties are stated by `SessionNameShort`, `SessionNameLong` and `SessionNameExample` |
| Sessions.RenamedName | frontend/src/components/ChatSessionManager.tsx:120-127 | No name results if and only if there is no user message or the first one has structured content; otherwise the name is computed from that message's text |
| Sessions.SessionNameShort | frontend/src/components/ChatSessionManager.tsx:125-127 | A text of at most four space-separated words is the session name exactly as it is |
| Sessions.SessionNameLong | frontend/src/components/ChatSessionManager.tsx:125-127 | A longer text gives its first four words joined by spaces, then "..."; those words form a prefix of the text, and splitting them again gives back the same four words |
| Sessions.SessionNameExample | frontend/src/components/ChatSessionManager.tsx:125-127 | "What is the capital of France please" is named "What is the capital..." |
| Sessions.RenameWithoutPlainUserMessage | frontend/src/components/ChatSessionManager.tsx:120-122 | Renaming leaves the list unchanged when there is no user message, or when the first user message is structured |
| Sessions.ChatSessionManager.ActiveSession | frontend/src/components/ChatSessionManager.tsx:141-143 | There is an active session exactly when the list is non-empty; it is the first session in the list that carries the active id |
| Sessions.ChatSessionManager.Save | frontend/src/components/ChatSessionManager.tsx:52-56 | Storage is written with the list exactly when the list is non-empty; otherwise storage, the list and the active id are unchanged |
| Sessions.ChatSessionManager.Load | frontend/src/components/ChatSessionManager.tsx:22-49 | A parsed list is adopted as it is, with its first session active; if nothing was saved or parsing failed, one greeting session named "Chat 1" is created and made active |
| Sessions.ChatSessionManager.CreateNewSession | frontend/src/components/ChatSessionManager.tsx:59-74 | Exactly one greeting session named "Chat " + (old count + 1) is placed before the old sessions, which keep their order; it becomes active and storage holds the new list |
| Sessions.ChatSessionManager.DeleteSession | frontend/src/components/ChatSessionManager.tsx:77-100 | Every session with the id is removed. When another session is active it stays active; when the active session is deleted, the first remaining session becomes active. If no session remains, exactly one fresh greeting session is created and made active. Storage is removed when the filtered list is empty, unless the created session rewrites it |
| Sessions.ChatSessionManager.UpdateSessionMessages | frontend/src/components/ChatSessionManager.tsx:103-112 | The messages of the sessions with the id are replaced and nothing else changes; the active id is kept and storage mirrors the list |
| Sessions.ChatSessionManager.RenameSessionFromContent | frontend/src/components/ChatSessionManager.tsx:115-138 | The sessions with the id take the computed name, or the list is unchanged when no name results; the active id is kept |
| Sessions.ChatSessionManager.OnMessagesUpdate | frontend/src/components/ChatSessionManager.tsx:196-210 | The active session's messages are replaced; the session is also renamed exactly when it held one assistant message before and the new list is longer than one message |
| Sessions.RenameTrigger | frontend/src/components/ChatSessionManager.tsx:200-204 | Definition: the session held exactly one message, from the assistant, and the new list is longer than one message. `OnMessagesUpdate` renames exactly when it holds |
| Sessions.ChatSessionManager.SelectSession | frontend/src/components/ChatSessionManager.tsx:154 | The clicked session becomes active and nothing else changes |
| Interface.StatusName | frontend/src/components/ChatInterface.tsx:13 | Every status is stored as a non-empty name made only of lower-case letters |
| Interface.StatusColor | frontend/src/components/ChatInterface.tsx:44-55 | Definition: green or yellow online, by the loaded flag; red for error and offline; gray otherwise. `ColorMatchesText` ties each colour to its text in both directions |
| Interface.StatusText | frontend/src/components/ChatInterface.tsx:57-62 | Definition: the online texts by the loaded flag; otherwise "Server " and the capitalized status name. `StatusTexts` gives all five texts, and `StatusTextInjective` shows that the text determines the state |
| Interface.BadgeVariant | frontend/src/components/ChatInterface.tsx:67 | Definition: "default" online, "secondary" otherwise. `ColorMatchesText` proves it is "default" exactly for a green or yellow dot |
| Interface.StatusTexts | frontend/src/components/ChatInterface.tsx:57-62 | The text is "Server Online" for online and loaded, "Model Loading" for online and not loaded, and "Server Checking", "Server Error" or "Server Offline" otherwise |
| Interface.StatusTextInjective | frontend/src/components/ChatInterface.tsx:57-62 | Different statuses get different texts, and for an online server the text tells whether the model is loaded |
| Interface.ColorMatchesText | frontend/src/components/ChatInterface.tsx:44-67 | The colour is green exactly for "Server Online", yellow exactly for "Model Loading", red exactly for error or offline, and gray exactly while checking; the badge is "default" exactly when the server is online |
| Interface.ServerStatus.constructor | frontend/src/components/ChatInterface.tsx:13-14 | The indicator starts in "checking" with no model loaded |
| Interface.ServerStatus.ApplyHealth | frontend/src/components/ChatInterface.tsx:17-33 | An ok answer sets online with the reported loaded flag; a non-ok answer sets error and an exception sets offline, both keeping the flag; the state is never "checking" afterwards |
| Interface.ReplyContent | frontend/src/components/ChatInterface.tsx:120 | The content is `text` when it is non-empty, and otherwise the first choice's text |
| Interface.ReplyLine | frontend/src/components/ChatInterface.tsx:117-133 | The appended message is always the assistant's: the reply content for an ok answer, and the fixed apology for a non-ok answer or an exception |
| Interface.SendDisabledIff | frontend/src/components/ChatInterface.tsx:93 | Send is refused exactly while loading, or when the input is empty or all white space |
| Interface.ChatInterface.constructor | frontend/src/components/ChatInterface.tsx:75-79 | The panel starts with the greeting alone, an empty input and no request in flight |
| Interface.ChatInterface.SetInput | frontend/src/components/ChatInterface.tsx:186 | Only the input changes |
| Interface.ChatInterface.Submit | frontend/src/components/ChatInterface.tsx:89-112 | No request is sent if and only if the input is blank or a request is in flight, and then nothing changes. Otherwise the request carries the input with stream false, 512 tokens and temperature 0.7; the user's message is appended, the input is cleared and loading is set |
| Interface.ChatInterface.Receive | frontend/src/components/ChatInterface.tsx:114-136 | Exactly one assistant message is appended after the earlier ones, whatever the outcome; loading ends and the input is kept |
| Interface.ChatInterface.KeyDown | frontend/src/components/ChatInterface.tsx:139-146 | Enter without Shift has exactly `Submit`'s effect: nothing changes when sending is disabled; otherwise the request for the old input is returned, the user line is appended, the input cleared and loading set. Any other key changes nothing |
| Interface.SubmitTwice | frontend/src/components/ChatInterface.tsx:93-99 | Two submits in a row send at most one request |
| Thought.MessageItem | frontend/src/components/ThoughtProcess.tsx:36-75 | A message with plain content is shown verbatim on its role's side. A user message with structured content is the render error React raises for an object child. Any other structured message shows a response that is never empty: the response itself, or the fallback text when the response is empty. The thought panel appears exactly for a non-empty thought and shows that thought |
| Thought.DurationLabel | frontend/src/components/ThoughtProcess.tsx:19 | The label is "..." exactly when the duration is absent or 0; otherwise it is the number |
| Bubble.DisplayContent | frontend/src/components/ChatBubble.tsx:182-183 | Definition: string content as it is, or the structured response; `|| ""` leaves an empty response empty. `NonEmptyResponseKept` and `EmptyResponseShowsFallback` use it |
| Bubble.FinalAnswerStep | frontend/src/components/ChatBubble.tsx:186-191 | Definition: the guarded literal rewrite of the worked example's final answer. `FinalAnswerStepUnguarded` proves the guard redundant |
| Bubble.CleanupLatex | frontend/src/components/ChatBubble.tsx:194-214 | Definition: the chain of unescaping steps, literal fix-ups and braced rewrites in source order. `BubbleTextVerbatim` proves the chain is the identity on text without backslashes and dollar signs |
| Bubble.PreprocessLatex | frontend/src/components/ChatBubble.tsx:15-44 | Definition: three literal rewrites of the worked example, then every `\boxed{X}` becomes `\bbox[border: 1px solid]{X}`. Its properties are stated by `PreprocessLatexNoBoxed` and `PreprocessLatexSingleBoxed` |
| Bubble.MathBlock | frontend/src/components/ChatBubble.tsx:219-223 | Definition: the replacement of one formula, `"\n\n$$" + preprocessLatex(F.trim()) + "$$\n\n"`. `DisplayMathBlock` places it in the text |
| Bubble.PairRewrite | frontend/src/components/ChatBubble.tsx:217-224 | Definition: the global lazy `$$…$$` replace with any replacement function; each `$$` pairs with the nearest following one. `FindClosing` and the lemmas under `DisplayMathBlock` state how it pairs and what it keeps |
| Bubble.DisplayMath | frontend/src/components/ChatBubble.tsx:217-224 | Definition: the `$$…$$` replace with `MathBlock` as its replacement. Its properties are stated by `DisplayMathNoDollar` and `DisplayMathBlock` |
| Bubble.BubbleText | frontend/src/components/ChatBubble.tsx:182-224 | Definition: display content, then the final-answer step, the clean-up chain and the display-math pass. `BubbleTextVerbatim` and `MessageItem` state what it shows |
| Bubble.MessageItem | frontend/src/components/ChatBubble.tsx:274-321 | Exactly plain content gives a single bubble, on the user side for a user message, with the rewritten text. Structured content shows its thought panel exactly for a non-empty thought |
| Bubble.BracedRewriteAbsent | frontend/src/components/ChatBubble.tsx:38-41 | A braced rewrite leaves text without its head unchanged |
| Bubble.PreprocessLatexNoBoxed | frontend/src/components/ChatBubble.tsx:15-44 | `preprocessLatex` returns text that does not contain `\boxed{` unchanged, because every pattern it rewrites contains that string |
| Bubble.PreprocessLatexSingleBoxed | frontend/src/components/ChatBubble.tsx:38-41 | A single `\boxed{X}`, with X non-empty and free of `}`, becomes `\bbox[border: 1px solid]{X}` |
| Bubble.ExamplePatternsContainBoxed | frontend/src/components/ChatBubble.tsx:20-35 | Each of the three special-cased example patterns contains `\boxed{` |
| Bubble.FinalAnswerStepUnguarded | frontend/src/components/ChatBubble.tsx:186-191 | The "Final Answer:" step is the same as its unguarded replacement, and it leaves text without "Final Answer:" unchanged |
| Strings.ReplaceAll | frontend/src/components/ChatBubble.tsx:199-204 | Definition: a global replace of a literal pattern, left to right and without overlap. `ReplaceAllAbsent` and `ExampleFracStepIdentity` state its identity cases |
| Strings.ReplaceAllAbsent | frontend/src/components/ChatBubble.tsx:199-204 | Each literal fix-up step leaves text that does not contain its pattern unchanged |
| Bubble.ExampleFracStepIdentity | frontend/src/components/ChatBubble.tsx:209 | The `\boxed{\frac{e^` step replaces that string by itself, so it changes nothing |
| Bubble.UnescapeBeforeLettersNoBackslash | frontend/src/components/ChatBubble.tsx:196 | Text without backslashes passes the first unescaping step unchanged |
| Bubble.UnescapeBeforeOtherNoBackslash | frontend/src/components/ChatBubble.tsx:197 | Text without backslashes passes the second unescaping step unchanged |
| Bubble.DisplayMathNoDollar | frontend/src/components/ChatBubble.tsx:217-224 | Text without `$` passes the display-math step unchanged |
| Bubble.DisplayMathBlock | frontend/src/components/ChatBubble.tsx:217-224 | A `$$F$$` becomes `"\n\n$$" + preprocessLatex(trim(F)) + "$$\n\n"` when no `$$` starts inside F or inside the text before it (a lone `$` is allowed); the text before it is kept and the pass continues after it |
| Bubble.BubbleTextVerbatim | frontend/src/components/ChatBubble.tsx:182-224 | Text without backslashes and dollar signs passes the whole rewrite chain unchanged |
| Bubble.EmptyResponseShowsFallback | frontend/src/components/ChatBubble.tsx:286-292 | A structured message with an empty response is shown with "No response generated. Please try again." |
| Bubble.NonEmptyResponseKept | frontend/src/components/ChatBubble.tsx:286-292 | A non-empty structured response is shown as the rewritten response itself, exactly as the string path would show it |
| Strings.Find | frontend/src/components/ChatBubble.tsx:218 | The position found is the first occurrence of the pattern; no position is found exactly when the pattern does not occur |
| Strings.Split | frontend/src/components/ChatSessionManager.tsx:125 | A split gives at least one piece, and no piece contains the separator |
| Strings.JoinSplit | frontend/src/components/ChatSessionManager.tsx:125-127 | Joining the pieces of a split with the separator gives back the text |
| Strings.SplitJoin | frontend/src/components/ChatSessionManager.tsx:125-127 | Splitting a join of separator-free pieces gives back those pieces |
| Strings.Trim | frontend/src/components/ChatInterface.tsx:93 | Definition: `TrimEnd(TrimStart(s))` over the white-space characters of `IsSpace`. Its properties are stated by `TrimShape` and `TrimEmptyIff`, which `SendDisabledIff` uses |
| Strings.TrimShape | frontend/src/components/ChatInterface.tsx:93 | The trimmed text is a slice of the input that neither starts nor ends with white space, and everything cut off before and after it is white space |
| Strings.NatToStringInjective | frontend/src/components/ChatSessionManager.tsx:61-62 | Different numbers give different numerals, so sessions created at different times get different ids |
| Strings.Capitalize | frontend/src/components/ChatInterface.tsx:61 | Capitalizing keeps the length, upper-cases the first character and keeps every character after it |
| Api.ErrorBody | backend/python/api/routes.py:25 | An error body is an object with exactly the one given key, which holds the message |
| Api.Tokenize | backend/python/api/routes.py:71-86 | Without a model the reply is 500 "Model not initialized"; without "text" it is 400 "Missing text". Otherwise it is 200 with the token ids, 500 under "tokenization error" for a ModelError, or the exception escapes for any other error |
| Api.IdsJson | backend/python/api/routes.py:82 | The token list holds every id, in order |
| Api.Health | backend/python/api/routes.py:89-91 | Health is always 200 with status "healthy", and `model_loaded` is true exactly when a model is set |
| Api.Server.constructor | backend/python/api/routes.py:10 | The blueprint starts without a model |
| Api.Server.InitModel | backend/python/api/routes.py:13-19 | A model that loads becomes the global one. On a load failure the global is unchanged, and a ModelError is raised whose text is "Failed to initialize model: " followed by the cause |
| BackendRoutes.GenerateParams | backend/python/api/routes.py:33-40 | Supplied parameters pass through unchanged; missing ones default to 4096 tokens, temperature 0.7, top_p 0.95 and stream false |
| BackendRoutes.PayloadOfDataFrame | backend/python/api/routes.py:47 | The payload read back out of a frame is the payload that was framed |
| BackendRoutes.DataFrameIsDone | backend/python/api/routes.py:47-52 | A frame is the closing `[DONE]` frame exactly when its payload is `[DONE]` |
| BackendRoutes.GenerateStream | backend/python/api/routes.py:44-52 | The loop yields one frame per chunk in order, then an error frame if the model raised, then `[DONE]` |
| BackendRoutes.StreamFrames | backend/python/api/routes.py:44-52 | Definition: one data frame per chunk in order, one error frame when the iteration raised, then `[DONE]`. `GenerateStream`'s loop computes it; `StreamFramesShape` and `StreamDoneOnlyLast` state its shape |
| BackendRoutes.StreamFramesShape | backend/python/api/routes.py:44-52 | Chunk i is frame i; a failure adds exactly one error frame after the chunk frames; the last frame is `[DONE]` |
| BackendRoutes.StreamDoneOnlyLast | backend/python/api/routes.py:46-52 | When no chunk serialises to `[DONE]`, the stream holds exactly one `[DONE]` frame, and it is the last |
| BackendRoutes.Generate | backend/python/api/routes.py:22-68 | A missing model gives 500, checked before a missing prompt, which gives 400. The reply is an event stream exactly when the stream parameter is truthy, and its frames are those of the model's chunks. Otherwise a completed call gives 200 with the completion, and a raised one gives 500 with its message under "error". No exception escapes, and every non-200 JSON reply is 400 or 500 with the single key "error" |
| PythonRoutes.GenerateParams | python/api/routes.py:33-40 | Supplied parameters pass through unchanged; missing ones default to 512 tokens, temperature 0.7, top_p 0.95 and stream false |
| PythonRoutes.ChoiceText | python/api/routes.py:49 | A chunk has text exactly when `choices[0].text` exists and is a string, and the text is that string |
| PythonRoutes.StreamedText | python/api/routes.py:46-53 | Definition: the chunk texts in order, up to the first chunk without one, and whether the stream stopped there. Its properties are stated by `StreamedTextAllGood` and `StreamedTextStopsAtBadChunk`, and `GenerateTextStream` computes it |
| PythonRoutes.StreamedTextAllGood | python/api/routes.py:46-50 | When every chunk has text, the body is exactly the concatenation of the chunk texts, in order, with no framing and no terminator |
| PythonRoutes.StreamedTextStopsAtBadChunk | python/api/routes.py:46-53 | A chunk without text ends the body there: nothing after it is sent, and the stream is cut short |
| PythonRoutes.GenerateTextStream | python/api/routes.py:46-53 | The loop writes the streamed text; it is cut short by a chunk without text or by the model raising |
| PythonRoutes.ErrorKey | python/api/routes.py:64-69 | A ModelError is reported under "generation error", and any other exception under "error" |
| PythonRoutes.Generate | python/api/routes.py:22-69 | A missing model gives 500, checked before a missing prompt, which gives 400. The reply is a raw text stream exactly when the stream parameter is truthy. Otherwise a completed call gives 200 with the completion, and a raised one gives 500 with its message under the key its exception class selects. No exception escapes, and every non-200 JSON reply is 400 or 500 under "error" or "generation error" |
| Json.JsTruthy | frontend/src/components/ChatInterface.tsx:47 | JavaScript truthiness agrees with Python's except that an empty array or object is truthy |
| HealthCheck.Seen | frontend/src/components/ChatInterface.tsx:22-30 | A non-2xx reply is a non-ok answer. A 2xx body of `null` throws. Any other 2xx body is an ok answer whose flag is the JavaScript truthiness of `model_loaded`, false when the field is missing or the body is not an object |
| HealthCheck.EmptyContainerSeenLoaded | frontend/src/components/ChatInterface.tsx:26 | An empty list or object under `model_loaded` is read as a loaded model, though Python would call it false |
| HealthCheck.HealthShownAs | backend/python/api/routes.py:89-91 | After a successful poll the indicator shows "Server Online" in green exactly when the server has a model, and "Model Loading" otherwise |

## Left out

- **Streaming decoder.** The client sends `stream: false` and reads one JSON body. No modelled
  file splits a thought from a response, applies a thinking time-box, reads `finish_reason` or
  parses Server-Sent Events on the client, so none of that is modelled.
- **Rendering.** JSX, animation, ReactMarkdown and KaTeX are presentation and foreign libraries.
  The model stops at the text handed to the Markdown renderer and at which bubbles and panels
  appear.
- **Inline-math pass** (frontend/src/components/ChatBubble.tsx:227-231). The lazy `$…$`
  replacement re-scans the output of the display-math pass. `Bubble.BubbleText` stops before it.
- **Network, timers and scrolling.** `fetch`, the 5000 ms health poll and the scroll effect are
  left out. Each answer is an input: `HealthReply` or `GenerateReply`. `ApplyHealth` is one poll.
- **Storage encoding.** `localStorage`, `JSON.parse`/`stringify` and the `Date` rebuild are
  foreign calls. Storage holds the list itself. A parse failure is the `Unparsable` input. A
  stored value that parses to something other than a list of sessions is not modelled.
- **Time.** `Date` is a number of milliseconds. `new Date()` and `Date.now()` are one parameter
  `now`, so `createdAt` and the id's timestamp agree.
- **Sessions.ChatSessionManager.DeleteSession.** The contract does not state that ids are
  unique. Ids come from the clock and are not guaranteed unique, so deletion removes every
  session with the id.
- **Sessions.ChatSessionManager.OnMessagesUpdate.** The callback is an external event. The shown
  `ChatInterface` takes no props and never calls it, so the two components are not wired
  together.
- **Interface.Line.** The chat panel keeps its own message type, whose content may be absent
  when a reply carries no text. It is not converted to the sessions' `Thought.Message`, because
  the two components are not wired together.
- **Interface.ReplyContent.** Only string values of `data.text` and `choices[0].text` are
  modelled. Other JSON values in those fields are not.
- **Interface.ServerStatus.ApplyHealth.** React stores the raw `model_loaded` value. The model
  stores its JavaScript truthiness (`HealthCheck.Seen`), which is the only way the value is used.
- **Thought.DurationLabel.** The duration, a JavaScript number, is modelled as an optional
  integer. Fractional, negative-zero and NaN durations, and how JavaScript prints them, are not
  modelled.
- **Strings.Capitalize.** `toUpperCase` is modelled for ASCII letters only; the status names
  are ASCII.
- **Strings.Trim.** This is `String.prototype.trim` over the white-space characters listed in
  `IsSpace`. Unicode categories beyond those are not modelled.
- **Request bodies.** A body is absent or a JSON object. Any other JSON body, such as a list or a
  string, is not modelled.
- **The language model** (backend/python/llm/model.py) is not part of this model. Its calls are
  inputs: the chunks a streamed generation yields and the exception that may end them, the
  completion or exception of a non-streaming call, and the token ids or exception of
  `tokenize`. As written, that file's `generate` contains a `yield`, so the non-streaming call
  returns a generator, which `jsonify` cannot encode. That case is the `CompletionRaised`
  input, not a separate behaviour.
- **BackendRoutes.StreamFrames.** `json.dumps` is an uninterpreted total parameter. A chunk that
  `dumps` cannot encode, which would make the loop emit the error frame early, is not modelled.
- **PythonRoutes.GenerateTextStream.** The exception raised after a stream has started ends the
  response. The model records this as `aborted`. It does not model Flask's handling of the
  error or the `ModelError` text it carries.
- **Logging, `n_threads`, response headers and MIME types** are not modelled.
- **`n_ctx`** is a parameter of `InitModel`. The defaults 4096 and 2048 are not modelled.
- **Startup and configuration** (backend/python/main.py, python/main.py) are not modelled:
  environment variables, file-system checks and the Flask app. python/utils/errors.py
  contributes only the error classes, as `Api.ErrorKind`.
