/**
 * ChatSessionManager.tsx: the ordered list of chat sessions, the id of the active session and the
 * copy of the list kept in browser storage under "chatSessions".
 * Each handler is one method; the `sessions` save effect that React runs after the handler's
 * updates is the last step of each method (`Save`).
 */
module Sessions {

  import opened Wrappers
  import opened Strings
  import opened Thought

  /** `ChatSession`; `createdAt` is the creation time in milliseconds. */
  datatype Session = Session(id: string, name: string, messages: seq<Message>, createdAt: nat)

  const GreetingText := "Hello! How can I assist you today?"
  const Greeting := Message(Assistant, Plain(GreetingText))

  /** The session `createNewSession` builds at time `now` while the list holds `count` sessions. */
  function FreshSession(now: nat, count: nat): (created: Session) {
    Session("session-" + NatToString(now), "Chat " + NatToString(count + 1), [Greeting], now)
  }

  predicate HasId(ss: seq<Session>, id: string) {
    exists i | 0 <= i < |ss| :: ss[i].id == id
  }

  /** `sessions.find((session) => session.id === id)`, as the index of the first match. */
  function FindIndex(ss: seq<Session>, id: string): (r: Option<nat>)
    ensures r.Some? ==> r.value < |ss| && ss[r.value].id == id
    ensures r.Some? ==> forall j | 0 <= j < r.value :: ss[j].id != id
    ensures r.None? <==> !HasId(ss, id)
    decreases |ss|
  {
    if ss == [] then None
    else if ss[0].id == id then Some(0)
    else
      match FindIndex(ss[1..], id)
      case None =>
        assert forall i | 1 <= i < |ss| :: ss[i] == ss[1..][i - 1];
        None
      case Some(j) =>
        assert forall i | 1 <= i < j + 1 :: ss[i] == ss[1..][i - 1];
        Some(j + 1)
  }

  /** `sessions.filter((session) => session.id !== id)`. */
  function WithoutId(ss: seq<Session>, id: string): (r: seq<Session>)
    ensures |r| <= |ss|
    ensures forall i | 0 <= i < |r| :: r[i].id != id
    decreases |ss|
  {
    if ss == [] then []
    else (if ss[0].id == id then [] else [ss[0]]) + WithoutId(ss[1..], id)
  }

  /** The filter removes every occurrence of a session with the id and keeps every other one. */
  lemma {:induction false} WithoutIdCount(ss: seq<Session>, id: string, s: Session)
    ensures multiset(WithoutId(ss, id))[s] == if s.id == id then 0 else multiset(ss)[s]
    decreases |ss|
  {
    if ss != [] {
      WithoutIdCount(ss[1..], id, s);
      assert ss == [ss[0]] + ss[1..];
    }
  }

  /** The record update that `map` applies to the matching session. */
  datatype Change = SetMessages(messages: seq<Message>) | SetName(name: string)

  function Apply(s: Session, ch: Change): (changed: Session) {
    match ch
    case SetMessages(ms) => s.(messages := ms)
    case SetName(n) => s.(name := n)
  }

  /** `sessions.map((session) => session.id === id ? { ...session, <change> } : session)`. */
  function UpdateWhere(ss: seq<Session>, id: string, ch: Change): (r: seq<Session>)
    ensures |r| == |ss|
    ensures forall i | 0 <= i < |ss| :: r[i] == if ss[i].id == id then Apply(ss[i], ch) else ss[i]
    decreases |ss|
  {
    if ss == [] then []
    else [if ss[0].id == id then Apply(ss[0], ch) else ss[0]] + UpdateWhere(ss[1..], id, ch)
  }

  /** `messages.find((msg) => msg.role === "user")`, as the index of the first user message. */
  function FirstUserIndex(ms: seq<Message>): (r: Option<nat>)
    ensures r.Some? ==> r.value < |ms| && ms[r.value].role == User
    ensures r.Some? ==> forall j | 0 <= j < r.value :: ms[j].role != User
    ensures r.None? <==> forall j | 0 <= j < |ms| :: ms[j].role != User
    decreases |ms|
  {
    if ms == [] then None
    else if ms[0].role == User then Some(0)
    else
      match FirstUserIndex(ms[1..])
      case None =>
        assert forall i | 1 <= i < |ms| :: ms[i] == ms[1..][i - 1];
        None
      case Some(j) =>
        assert forall i | 1 <= i < j + 1 :: ms[i] == ms[1..][i - 1];
        Some(j + 1)
  }

  /** `words.slice(0, 4).join(" ") + (words.length > 4 ? "..." : "")` for `words = text.split(" ")`. */
  function SessionName(text: string): (name: string) {
    var words := Split(text, ' ');
    Join(words[..if |words| < 4 then |words| else 4], " ") + (if |words| > 4 then "..." else "")
  }

  /**
   * The name `renameSessionFromContent` gives, if any: none without a user message or when the
   * first user message has structured content.
   */
  function RenamedName(ms: seq<Message>): (r: Option<string>)
    ensures r.None? <==> FirstUserIndex(ms).None? || !ms[FirstUserIndex(ms).value].content.Plain?
    ensures r.Some? ==> r.value == SessionName(ms[FirstUserIndex(ms).value].content.text)
  {
    match FirstUserIndex(ms)
    case None => None
    case Some(i) => if ms[i].content.Plain? then Some(SessionName(ms[i].content.text)) else None
  }

  /** The rename condition in `onMessagesUpdate`: a lone assistant message is being followed up. */
  predicate RenameTrigger(before: seq<Message>, after: seq<Message>) {
    |before| == 1 && before[0].role == Assistant && |after| > 1
  }

  /** The list after a rename from `ms`: unchanged when no name results. */
  function Renamed(ss: seq<Session>, id: string, ms: seq<Message>): (r: seq<Session>) {
    match RenamedName(ms)
    case None => ss
    case Some(n) => UpdateWhere(ss, id, SetName(n))
  }

  /** Filtering distributes over concatenation, so the kept sessions stay in their order. */
  lemma {:induction false} WithoutIdAppend(a: seq<Session>, b: seq<Session>, id: string)
    ensures WithoutId(a + b, id) == WithoutId(a, id) + WithoutId(b, id)
    decreases |a|
  {
    if a == [] {
      assert a + b == b;
    } else {
      var ab := a + b;
      assert ab[0] == a[0];
      assert ab[1..] == a[1..] + b;
      var h: seq<Session> := if a[0].id == id then [] else [a[0]];
      var x := WithoutId(a[1..], id);
      var y := WithoutId(b, id);
      WithoutIdAppend(a[1..], b, id);
      assert WithoutId(ab, id) == h + (x + y);
      assert WithoutId(a, id) == h + x;
      assert h + (x + y) == (h + x) + y;
    }
  }

  /** The filter changes the list exactly when some session carries the id. */
  lemma {:induction false} WithoutIdUnchanged(ss: seq<Session>, id: string)
    ensures WithoutId(ss, id) == ss <==> !HasId(ss, id)
    decreases |ss|
  {
    if HasId(ss, id) {
      var i :| 0 <= i < |ss| && ss[i].id == id;
      WithoutIdCount(ss, id, ss[i]);
      assert multiset(ss)[ss[i]] > 0;
    } else if ss != [] {
      assert !HasId(ss[1..], id) by {
        forall i | 0 <= i < |ss[1..]| ensures ss[1..][i].id != id {
          assert ss[1..][i] == ss[i + 1];
        }
      }
      WithoutIdUnchanged(ss[1..], id);
      assert ss == [ss[0]] + ss[1..];
    }
  }

  /** A session with another id survives the filter, so an active id naming it stays valid. */
  lemma OtherIdSurvives(ss: seq<Session>, id: string, x: string)
    requires HasId(ss, x) && x != id
    ensures HasId(WithoutId(ss, id), x)
  {
    var k :| 0 <= k < |ss| && ss[k].id == x;
    var r := WithoutId(ss, id);
    WithoutIdCount(ss, id, ss[k]);
    assert multiset(r)[ss[k]] > 0;
    assert ss[k] in r;
    var j :| 0 <= j < |r| && r[j] == ss[k];
  }

  /** Deleting the same id twice is deleting it once. */
  lemma WithoutIdIdempotent(ss: seq<Session>, id: string)
    ensures WithoutId(WithoutId(ss, id), id) == WithoutId(ss, id)
  {
    WithoutIdUnchanged(WithoutId(ss, id), id);
  }

  /**
   * Deleting a session just placed in front of the list, such as the one `createNewSession`
   * builds, gives back the earlier list when its id was not yet in use.
   */
  lemma CreateThenDelete(created: Session, ss: seq<Session>)
    requires !HasId(ss, created.id)
    ensures WithoutId([created] + ss, created.id) == ss
  {
    WithoutIdAppend([created], ss, created.id);
    assert WithoutId([created], created.id) == [];
    WithoutIdUnchanged(ss, created.id);
  }

  /** A change to the sessions with one id leaves a list without that id as it is. */
  lemma UpdateWhereAbsent(ss: seq<Session>, id: string, ch: Change)
    requires !HasId(ss, id)
    ensures UpdateWhere(ss, id, ch) == ss
  {
    var r := UpdateWhere(ss, id, ch);
    forall i | 0 <= i < |ss| ensures r[i] == ss[i] {
      assert ss[i].id != id;
    }
  }

  /**
   * After a change, looking a session up by any id finds the same position, holding the changed
   * session for the changed id and the untouched one for every other id.
   */
  lemma {:induction false} UpdateWhereFind(ss: seq<Session>, id: string, ch: Change, x: string)
    ensures FindIndex(UpdateWhere(ss, id, ch), x) == FindIndex(ss, x)
    ensures FindIndex(ss, x).Some? ==> var k := FindIndex(ss, x).value;
      UpdateWhere(ss, id, ch)[k] == if x == id then Apply(ss[k], ch) else ss[k]
    decreases |ss|
  {
    if ss != [] && ss[0].id != x {
      var r := UpdateWhere(ss, id, ch);
      assert r[1..] == UpdateWhere(ss[1..], id, ch);
      UpdateWhereFind(ss[1..], id, ch, x);
    }
  }

  /** A text of at most four words names the session as it is. */
  lemma SessionNameShort(text: string)
    requires |Split(text, ' ')| <= 4
    ensures SessionName(text) == text
  {
    var words := Split(text, ' ');
    assert words[..|words|] == words;
    JoinSplit(text, ' ');
  }

  /**
   * A longer text is named by its first four words, which are a prefix of it and split back into
   * those four words, followed by "...".
   */
  lemma SessionNameLong(text: string)
    requires |Split(text, ' ')| > 4
    ensures var head := Join(Split(text, ' ')[..4], " ");
      SessionName(text) == head + "..." && IsPrefix(head, text) && Split(head, ' ') == Split(text, ' ')[..4]
  {
    var words := Split(text, ' ');
    JoinPrefix(words, 4, " ");
    JoinSplit(text, ' ');
    assert forall w | w in words[..4] :: w in words;
    SplitJoin(words[..4], ' ');
  }

  const ExampleWords: seq<string> := ["What", "is", "the", "capital", "of", "France", "please"]
  const ExampleText := "What is the capital of France please"

  /** A join of four pieces, written out. */
  lemma JoinFour(a: string, b: string, c: string, d: string, sep: string)
    ensures Join([a, b, c, d], sep) == a + sep + b + sep + c + sep + d
  {
    var p := [a, b, c, d];
    assert p[1..][1..][1..] == [d];
    assert p[1..][1..] == [c] + [d];
    JoinCons(c, [d], sep);
    assert p[1..] == [b] + p[1..][1..];
    JoinCons(b, p[1..][1..], sep);
    assert p == [a] + p[1..];
    JoinCons(a, p[1..], sep);
  }

  /** A join of seven pieces, written out. */
  lemma JoinSeven(a: string, b: string, c: string, d: string, e: string, f: string, g: string, sep: string)
    ensures Join([a, b, c, d, e, f, g], sep) ==
      a + sep + b + sep + c + sep + d + sep + e + sep + f + sep + g
  {
    var p := [a, b, c, d, e, f, g];
    var q := [d, e, f, g];
    JoinFour(d, e, f, g, sep);
    assert [c] + q == p[2..];
    JoinCons(c, q, sep);
    assert [b] + p[2..] == p[1..];
    JoinCons(b, p[2..], sep);
    assert [a] + p[1..] == p;
    JoinCons(a, p[1..], sep);
  }

  lemma ExampleSpelled()
    ensures ExampleText == "What" + " " + "is" + " " + "the" + " " + "capital" + " " + "of" + " " + "France" + " " + "please"
    ensures "What" + " " + "is" + " " + "the" + " " + "capital" == "What is the capital"
  {
    ExampleSpelledHead();
    ExampleSpelledTail();
  }

  lemma ExampleSpelledHead()
    ensures "What" + " " + "is" + " " + "the" + " " + "capital" == "What is the capital"
  {
  }

  lemma ExampleSpelledTail()
    ensures "What is the capital" + " " + "of" + " " + "France" + " " + "please" == ExampleText
  {
  }

  lemma ExampleJoin()
    ensures Join(ExampleWords, " ") == ExampleText
  {
    JoinSeven("What", "is", "the", "capital", "of", "France", "please", " ");
    ExampleSpelled();
  }

  lemma ExampleHeadJoin()
    ensures Join(ExampleWords[..4], " ") == "What is the capital"
  {
    assert ExampleWords[..4] == ["What", "is", "the", "capital"];
    JoinFour("What", "is", "the", "capital", " ");
    ExampleSpelled();
  }

  lemma ExampleWordsUnspaced()
    ensures forall w | w in ExampleWords :: ' ' !in w
  {
  }

  lemma ExampleSplit()
    ensures Split(ExampleText, ' ') == ExampleWords
  {
    ExampleWordsUnspaced();
    ExampleJoin();
    SplitJoin(ExampleWords, ' ');
  }

  lemma ExampleName(text: string)
    requires Split(text, ' ') == ExampleWords
    ensures SessionName(text) == "What is the capital..."
  {
    ExampleHeadJoin();
  }

  /** The worked example: seven words are cut to four. */
  lemma SessionNameExample()
    ensures SessionName(ExampleText) == "What is the capital..."
  {
    ExampleSplit();
    ExampleName(ExampleText);
  }

  /** Without a user message, or when the first one is structured, the rename leaves every name. */
  lemma RenameWithoutPlainUserMessage(ss: seq<Session>, id: string, ms: seq<Message>)
    requires FirstUserIndex(ms).None? || !ms[FirstUserIndex(ms).value].content.Plain?
    ensures Renamed(ss, id, ms) == ss
  {
  }

  /** What browser storage holds when the component mounts. */
  datatype Saved =
    | NothingSaved            // no "chatSessions" item, or the empty string
    | Unparsable              // `JSON.parse` or the date mapping throws
    | Parsed(list: seq<Session>)

  class ChatSessionManager {
    var sessions: seq<Session>
    var activeId: Option<string>
    /** The "chatSessions" storage item, as the list it encodes. */
    var storage: Option<seq<Session>>

    /**
     * The active id names an existing session whenever the list is non-empty, and storage mirrors
     * any non-empty list.
     */
    predicate Valid()
      reads this
    {
      (|sessions| > 0 ==> activeId.Some?) &&
      (activeId.Some? ==> HasId(sessions, activeId.value)) &&
      (|sessions| > 0 ==> storage == Some(sessions))
    }

    /** The session handed to `ChatInterface`. */
    function ActiveSession(): (r: Option<Session>)
      reads this
      requires Valid()
      ensures r.Some? <==> |sessions| > 0
      ensures r.Some? ==> r.value in sessions && Some(r.value.id) == activeId
      ensures r.Some? ==> (FindIndex(sessions, activeId.value).Some? &&
        r.value == sessions[FindIndex(sessions, activeId.value).value])
    {
      if activeId.None? then None else Some(sessions[FindIndex(sessions, activeId.value).value])
    }

    /** The save effect: a non-empty list is written to storage. */
    method Save()
      modifies this
      ensures sessions == old(sessions) && activeId == old(activeId)
      ensures storage == if |sessions| > 0 then Some(sessions) else old(storage)
    {
      if |sessions| > 0 {
        storage := Some(sessions);
      }
    }

    /**
     * The mount effect: a parsed list is taken as it is, with its first session active; with
     * nothing saved or a parse failure a new session named "Chat 1" is created.
     */
    constructor Load(saved: Saved, now: nat)
      ensures Valid()
      ensures saved.Parsed? ==> sessions == saved.list && storage == Some(saved.list)
      ensures saved.Parsed? ==> activeId == if saved.list == [] then None else Some(saved.list[0].id)
      ensures !saved.Parsed? ==> sessions == [FreshSession(now, 0)] && storage == Some(sessions)
      ensures !saved.Parsed? ==> activeId == Some(FreshSession(now, 0).id)
    {
      match saved {
        case Parsed(list) =>
          sessions := list;
          activeId := if list == [] then None else Some(list[0].id);
          storage := Some(list);
        case _ =>
          var created := FreshSession(now, 0);
          sessions := [created];
          activeId := Some(created.id);
          storage := Some([created]);
      }
      new;
      if sessions != [] { assert sessions[0].id == activeId.value; }
    }

    /** `createNewSession`: prepend a greeting session named after the count, and activate it. */
    method CreateNewSession(now: nat)
      requires Valid()
      modifies this
      ensures Valid()
      ensures sessions == [FreshSession(now, |old(sessions)|)] + old(sessions)
      ensures activeId == Some(sessions[0].id)
      ensures storage == Some(sessions)
    {
      var created := FreshSession(now, |sessions|);
      sessions := [created] + sessions;
      activeId := Some(created.id);
      assert sessions[0].id == activeId.value;
      Save();
    }

    /**
     * `deleteSession`: drop every session with this id. When the active session is deleted the
     * first remaining session becomes active; when none remains a new session is created from the
     * list as it was before the deletion, so it is named after the old count. Storage is cleared
     * when the filtered list is empty and then rewritten by the save effect if a session was made.
     */
    method DeleteSession(id: string, now: nat)
      requires Valid()
      modifies this
      ensures Valid()
      ensures old(activeId) == Some(id) && WithoutId(old(sessions), id) == [] ==>
        sessions == [FreshSession(now, |old(sessions)|)] && activeId == Some(sessions[0].id) &&
        storage == Some(sessions)
      ensures old(activeId) == Some(id) && WithoutId(old(sessions), id) != [] ==>
        sessions == WithoutId(old(sessions), id) && activeId == Some(sessions[0].id) &&
        storage == Some(sessions)
      ensures old(activeId) != Some(id) ==>
        sessions == WithoutId(old(sessions), id) && activeId == old(activeId) &&
        storage == if sessions == [] then None else Some(sessions)
    {
      var count := |sessions|;
      var updated := WithoutId(sessions, id);
      sessions := updated;
      if Some(id) == activeId {
        if |updated| > 0 {
          activeId := Some(updated[0].id);
          assert sessions[0].id == activeId.value;
        } else {
          var created := FreshSession(now, count);
          sessions := [created] + sessions;
          activeId := Some(created.id);
          assert sessions[0].id == activeId.value;
        }
      } else if activeId.Some? {
        OtherIdSurvives(old(sessions), id, activeId.value);
      }
      if |updated| == 0 {
        storage := None;
      }
      Save();
    }

    /** `updateSessionMessages`: replace the messages of the sessions with this id. */
    method UpdateSessionMessages(id: string, ms: seq<Message>)
      requires Valid()
      modifies this
      ensures Valid()
      ensures sessions == UpdateWhere(old(sessions), id, SetMessages(ms))
      ensures activeId == old(activeId)
      ensures storage == if sessions == [] then old(storage) else Some(sessions)
    {
      sessions := UpdateWhere(sessions, id, SetMessages(ms));
      if activeId.Some? {
        var k := FindIndex(old(sessions), activeId.value).value;
        assert sessions[k].id == activeId.value;
      }
      Save();
    }

    /** `renameSessionFromContent`: name the sessions with this id after the first user message. */
    method RenameSessionFromContent(id: string, ms: seq<Message>)
      requires Valid()
      modifies this
      ensures Valid()
      ensures RenamedName(ms).None? ==> sessions == old(sessions)
      ensures RenamedName(ms).Some? ==> sessions == UpdateWhere(old(sessions), id, SetName(RenamedName(ms).value))
      ensures activeId == old(activeId)
      ensures storage == if sessions == [] then old(storage) else Some(sessions)
    {
      var name := RenamedName(ms);
      if name.Some? {
        sessions := UpdateWhere(sessions, id, SetName(name.value));
        if activeId.Some? {
          var k := FindIndex(old(sessions), activeId.value).value;
          assert sessions[k].id == activeId.value;
        }
      }
      Save();
    }

    /**
     * `onMessagesUpdate` of the active session: the messages are replaced, and the session is
     * renamed when it held only the assistant's first message before this update.
     */
    method OnMessagesUpdate(ms: seq<Message>)
      requires Valid() && activeId.Some?
      modifies this
      ensures Valid()
      ensures var before := old(ActiveSession()).value;
        var updated := UpdateWhere(old(sessions), before.id, SetMessages(ms));
        sessions == if RenameTrigger(before.messages, ms) then Renamed(updated, before.id, ms) else updated
      ensures activeId == old(activeId) && storage == Some(sessions)
    {
      var before := ActiveSession().value;
      UpdateSessionMessages(before.id, ms);
      if RenameTrigger(before.messages, ms) {
        RenameSessionFromContent(before.id, ms);
      }
    }

    /** A click on a session's tab activates it. */
    method SelectSession(id: string)
      requires Valid() && HasId(sessions, id)
      modifies this
      ensures Valid()
      ensures sessions == old(sessions) && storage == old(storage) && activeId == Some(id)
    {
      activeId := Some(id);
    }
  }
}
